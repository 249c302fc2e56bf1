/** Everything that can happen to the delivery queue, in any order and by any number of workers.

    Each action is one transaction. Time passing is the freedom of every action to carry any clock
    reading; a worker crash is a claim that no `Finish` ever follows. */
module DeliveryRuns {
  import opened Wrappers
  import opened Timestamps
  import opened Ordering
  import opened DeliveryQueue

  type Pair = (nat, nat)  // (event, channel)

  /** What has ever been recorded for a pair, whether or not the rows still exist. */
  datatype Tally = Tally(completions: nat, successes: nat, lastCompletion: Instant)

  /** The tables, and the history that no table keeps: completions, issued claims, and the pairs
      that were ever queued. */
  datatype World = World(queue: Queue, ledger: map<Pair, Tally>, claims: seq<ClaimedDelivery>, enqueued: set<Pair>) {
    function Recorded(p: Pair): Tally {
      if p in ledger then ledger[p] else Tally(0, 0, 0)
    }
  }

  datatype Rules = Rules(policy: RetryPolicy, retention: Retention)

  datatype Action =
    | Create(event: Event, now: Instant)
    | Enqueue(eventId: nat, now: Instant)
    | Take(now: Instant, lease: Duration, token: Token)
    | Finish(claim: ClaimedDelivery, success: bool, at: Instant)
    | PruneAttempts(now: Instant)
    | SetChannels(channels: seq<Channel>)
    | SetAssignments(assignments: set<(nat, nat)>)
    | SetPreferences(preferences: map<nat, Preferences>)

  function Pairs(attempts: map<nat, Attempt>): set<Pair> {
    set id | id in attempts :: attempts[id].Pair()
  }

  function WithQueue(w: World, q: Queue): World {
    w.(queue := q, enqueued := w.enqueued + Pairs(q.attempts))
  }

  function Record(w: World, p: Pair, success: bool, at: Instant): World {
    var t := w.Recorded(p);
    w.(ledger := w.ledger[p := Tally(t.completions + 1, t.successes + (if success then 1 else 0), at)])
  }

  function Apply(rules: Rules, w: World, action: Action): World {
    match action
    case Create(event, now) =>
      (match CreateEvent(w.queue, event, now)
       case Ok(q) => WithQueue(w, q)
       case Raised(_) => w)
    case Enqueue(eventId, now) =>
      (match EnsureEventDeliveries(w.queue, eventId, now)
       case Ok(q) => WithQueue(w, q)
       case Raised(_) => w)
    case Take(now, lease, token) =>
      (match Claim(w.queue, now, lease, token)
       case (q, Ok(Some(claim))) => WithQueue(w, q).(claims := w.claims + [claim])
       case (_, _) => w)
    case Finish(claim, success, at) =>
      (match Complete(w.queue, rules.policy, claim, success, at)
       case Ok(q) => Record(WithQueue(w, q), w.queue.attempts[claim.id].Pair(), success, at)
       case Raised(_) => w)
    case PruneAttempts(now) => WithQueue(w, w.queue.(attempts := Prune(w.queue.attempts, rules.retention, now)))
    case SetChannels(channels) => w.(queue := w.queue.(channels := channels))
    case SetAssignments(assignments) => w.(queue := w.queue.(assignments := assignments))
    case SetPreferences(preferences) => w.(queue := w.queue.(preferences := preferences))
  }

  // ---------- What callers owe ----------

  predicate Issued(claims: seq<ClaimedDelivery>, token: Token) {
    exists i :: 0 <= i < |claims| && claims[i].token == token
  }

  /** The first attempt of the pair is still there, or the pair never saw a completion. */
  predicate FirstAttemptIsDue(w: World, event: nat, channel: nat) {
    HasAttempt(w.queue.attempts, event, channel, 1) || w.Recorded((event, channel)).completions == 0
  }

  predicate Queues(q: Queue, eventId: nat) {
    && eventId in q.events && q.events[eventId].search in q.searches
    && PreferencesFor(q, q.events[eventId].search).Enables(q.events[eventId].kind)
  }

  /** `Enqueue` inserts no first attempt for a pair that has seen a completion. A caller is sure
      of it as long as no attempt of the event was pruned. */
  predicate SafeToEnqueue(w: World, eventId: nat) {
    Queues(w.queue, eventId) ==>
      forall c :: c in w.queue.channels && Receives(w.queue.assignments, w.queue.events[eventId].search, c) ==>
        FirstAttemptIsDue(w, eventId, c.id)
  }

  /** Tokens are fresh, as `uuid4` makes them, and no event is queued again after pruning. */
  predicate Allowed(w: World, action: Action) {
    match action
    case Take(_, _, token) => !Issued(w.claims, token)
    case Enqueue(eventId, _) => SafeToEnqueue(w, eventId)
    case _ => true
  }

  function Run(rules: Rules, w: World, actions: seq<Action>): World
    decreases |actions|
  {
    if actions == [] then w else Run(rules, Apply(rules, w, actions[0]), actions[1..])
  }

  predicate AllowedRun(rules: Rules, w: World, actions: seq<Action>)
    decreases |actions|
  {
    actions == [] || (Allowed(w, actions[0]) && AllowedRun(rules, Apply(rules, w, actions[0]), actions[1..]))
  }

  predicate Initial(w: World) {
    w.queue.events == map[] && w.queue.attempts == map[] && w.ledger == map[] && w.claims == [] && w.enqueued == {}
  }

  // ---------- The invariant ----------

  /** The claim most recently issued on an attempt id. */
  function LatestClaim(claims: seq<ClaimedDelivery>, id: nat): Option<ClaimedDelivery> {
    if claims == [] then None
    else if claims[|claims| - 1].id == id then Some(claims[|claims| - 1])
    else LatestClaim(claims[..|claims| - 1], id)
  }

  /** A row agrees with what is on record for its pair and with the latest claim on its id. */
  predicate RowAgrees(policy: RetryPolicy, t: Tally, latest: Option<ClaimedDelivery>, id: nat, a: Attempt) {
    && 1 <= a.number
    && (a.Live() ==> a.number == t.completions + 1 <= policy.maxAttempts && t.successes == 0)
    && (!a.Live() ==> a.number <= t.completions)
    && (a.Succeeded() ==> t.successes == 1)
    && (a.Live() && a.number > 1 ==> a.availableAt == t.lastCompletion + Delay(policy, a.number - 1))
    && (a.state.Claimed? ==>
          && Second(a.availableAt) <= Second(a.state.claimedAt)
          && a.state.claimedAt < a.state.leaseExpiresAt
          && latest == Some(ClaimedDelivery(id, a.state.token, a.state.claimedAt, a.state.leaseExpiresAt - a.state.claimedAt)))
  }

  predicate RowInvariant(rules: Rules, w: World, id: nat, a: Attempt) {
    && a.event in w.queue.events
    && a.Pair() in w.enqueued
    && RowAgrees(rules.policy, w.Recorded(a.Pair()), LatestClaim(w.claims, id), id, a)
  }

  predicate SameKey(a: Attempt, b: Attempt) {
    a.event == b.event && a.channel == b.channel && a.number == b.number
  }

  predicate UniqueAttempts(attempts: map<nat, Attempt>) {
    forall i, j {:trigger SameKey(attempts[i], attempts[j])} ::
      i in attempts && j in attempts && SameKey(attempts[i], attempts[j]) ==> i == j
  }

  predicate HasLive(attempts: map<nat, Attempt>, p: Pair) {
    exists id :: id in attempts && attempts[id].Pair() == p && attempts[id].Live()
  }

  predicate Bounded(rules: Rules, w: World, p: Pair) {
    var t := w.Recorded(p);
    p.0 in w.queue.events && t.successes <= 1 && t.successes <= t.completions <= rules.policy.maxAttempts
  }

  /** A queued delivery is never lost: it was delivered, or it used up its attempts, or an attempt
      is still live. */
  predicate Accounted(rules: Rules, w: World, p: Pair) {
    var t := w.Recorded(p);
    t.successes == 1 || t.completions == rules.policy.maxAttempts || HasLive(w.queue.attempts, p)
  }

  predicate DistinctTokens(claims: seq<ClaimedDelivery>) {
    forall i, j :: 0 <= i < j < |claims| ==> claims[i].token != claims[j].token
  }

  predicate RowsInvariant(rules: Rules, w: World) {
    && (forall id {:trigger RowInvariant(rules, w, id, w.queue.attempts[id])} ::
          id in w.queue.attempts ==> RowInvariant(rules, w, id, w.queue.attempts[id]))
    && UniqueAttempts(w.queue.attempts)
    && (forall p :: p in w.ledger ==> p in w.enqueued)
    && (forall p {:trigger Bounded(rules, w, p)} :: p in w.enqueued ==> Bounded(rules, w, p))
    && DistinctTokens(w.claims)
  }

  predicate Invariant(rules: Rules, w: World) {
    RowsInvariant(rules, w) && forall p {:trigger Accounted(rules, w, p)} :: p in w.enqueued ==> Accounted(rules, w, p)
  }

  // ---------- Each action keeps it ----------

  lemma LatestClaimIsIssued(claims: seq<ClaimedDelivery>, id: nat)
    ensures LatestClaim(claims, id).Some? ==>
              exists i :: 0 <= i < |claims| && claims[i] == LatestClaim(claims, id).value
  {
    if claims != [] && claims[|claims| - 1].id != id {
      LatestClaimIsIssued(claims[..|claims| - 1], id);
    }
  }

  lemma LatestClaimAfter(claims: seq<ClaimedDelivery>, claim: ClaimedDelivery, id: nat)
    ensures LatestClaim(claims + [claim], id) == if claim.id == id then Some(claim) else LatestClaim(claims, id)
  {
    assert (claims + [claim])[..|claims|] == claims;
  }

  /** An attempt that may follow everything on record for its pair. */
  predicate Follows(rules: Rules, w: World, a: Attempt) {
    var t := w.Recorded(a.Pair());
    && a.state.Pending?
    && a.event in w.queue.events
    && a.number == t.completions + 1 <= rules.policy.maxAttempts
    && t.successes == 0
    && (a.number > 1 ==> a.availableAt == t.lastCompletion + Delay(rules.policy, a.number - 1))
    && (forall id :: id in w.queue.attempts ==> !SameKey(w.queue.attempts[id], a))
  }

  function Inserted(w: World, a: Attempt): World {
    WithQueue(w, w.queue.(attempts := w.queue.attempts[NextId(w.queue.attempts.Keys) := a]))
  }

  lemma InsertedEnqueues(rules: Rules, w: World, a: Attempt)
    requires RowsInvariant(rules, w)
    ensures Inserted(w, a).enqueued == w.enqueued + {a.Pair()}
  {
    var attempts := w.queue.attempts;
    var fresh_ := NextId(attempts.Keys);
    var after := attempts[fresh_ := a];
    forall id | id in attempts ensures attempts[id].Pair() in w.enqueued {
      assert RowInvariant(rules, w, id, attempts[id]);
    }
    assert after[fresh_].Pair() in Pairs(after);
    assert Pairs(after) <= Pairs(attempts) + {a.Pair()};
  }

  lemma InsertKeepsRows(rules: Rules, w: World, a: Attempt)
    requires RowsInvariant(rules, w) && Follows(rules, w, a)
    ensures RowsInvariant(rules, Inserted(w, a))
  {
    InsertedEnqueues(rules, w, a);
    var w' := Inserted(w, a);
    forall id | id in w'.queue.attempts ensures RowInvariant(rules, w', id, w'.queue.attempts[id]) {
      if id in w.queue.attempts { assert RowInvariant(rules, w, id, w.queue.attempts[id]); }
    }
    forall p | p in w'.enqueued ensures Bounded(rules, w', p) {
      assert p in w.enqueued ==> Bounded(rules, w, p);
    }
  }

  /** Inserting the attempt that follows everything on record for its pair accounts for the pair. */
  lemma InsertKeeps(rules: Rules, w: World, a: Attempt)
    requires RowsInvariant(rules, w) && Follows(rules, w, a)
    requires forall p :: p in w.enqueued && p != a.Pair() ==> Accounted(rules, w, p)
    ensures Invariant(rules, Inserted(w, a))
  {
    InsertedEnqueues(rules, w, a);
    InsertKeepsRows(rules, w, a);
    var w' := Inserted(w, a);
    forall p | p in w'.enqueued ensures Accounted(rules, w', p) {
      if p == a.Pair() {
        assert w'.queue.attempts[NextId(w.queue.attempts.Keys)].Pair() == p;
      } else {
        LiveSurvives(w.queue.attempts, w'.queue.attempts, p);
      }
    }
  }

  /** Rows that are kept as they are keep their pair live. */
  lemma LiveSurvives(attempts: map<nat, Attempt>, after: map<nat, Attempt>, p: Pair)
    requires forall id :: id in attempts && attempts[id].Pair() == p && attempts[id].Live() ==>
               id in after && after[id].Pair() == p && after[id].Live()
    ensures HasLive(attempts, p) ==> HasLive(after, p)
  {
  }

  lemma SameRowsSameWorld(rules: Rules, w: World)
    requires RowsInvariant(rules, w)
    ensures WithQueue(w, w.queue) == w
  {
    forall id | id in w.queue.attempts ensures w.queue.attempts[id].Pair() in w.enqueued {
      assert RowInvariant(rules, w, id, w.queue.attempts[id]);
    }
    assert w.enqueued + Pairs(w.queue.attempts) == w.enqueued;
  }

  lemma EnsureFirstKeeps(rules: Rules, w: World, event: nat, channel: nat, now: Instant)
    requires rules.policy.Valid() && Invariant(rules, w) && event in w.queue.events
    requires FirstAttemptIsDue(w, event, channel)
    ensures Invariant(rules, WithQueue(w, w.queue.(attempts := EnsureAttempt(w.queue.attempts, event, channel, 1, now))))
  {
    if HasAttempt(w.queue.attempts, event, channel, 1) {
      SameRowsSameWorld(rules, w);
    } else {
      assert (event, channel) in w.enqueued ==> Bounded(rules, w, (event, channel));
      InsertKeeps(rules, w, Attempt(event, channel, 1, now, Pending));
    }
  }

  lemma EnsureForChannelsGrows(attempts: map<nat, Attempt>, event: nat, search: nat, assignments: set<(nat, nat)>,
                               channels: seq<Channel>, now: Instant)
    ensures var after := EnsureForChannels(attempts, event, search, assignments, channels, now);
            forall id :: id in attempts ==> id in after && after[id] == attempts[id]
    decreases |channels|
  {
    if channels != [] {
      var c := channels[0];
      var next := if Receives(assignments, search, c) then EnsureAttempt(attempts, event, c.id, 1, now) else attempts;
      assert forall id :: id in attempts ==> id in next && next[id] == attempts[id];
      EnsureForChannelsGrows(next, event, search, assignments, channels[1..], now);
    }
  }

  function EnsureForChannel(attempts: map<nat, Attempt>, event: nat, search: nat, assignments: set<(nat, nat)>, c: Channel, now: Instant): map<nat, Attempt> {
    if Receives(assignments, search, c) then EnsureAttempt(attempts, event, c.id, 1, now) else attempts
  }

  lemma EnsureForChannelKeeps(rules: Rules, w: World, event: nat, search: nat, c: Channel, now: Instant)
    requires rules.policy.Valid() && Invariant(rules, w) && event in w.queue.events
    requires Receives(w.queue.assignments, search, c) ==> FirstAttemptIsDue(w, event, c.id)
    ensures var next := EnsureForChannel(w.queue.attempts, event, search, w.queue.assignments, c, now);
            Invariant(rules, WithQueue(w, w.queue.(attempts := next)))
  {
    if Receives(w.queue.assignments, search, c) {
      EnsureFirstKeeps(rules, w, event, c.id, now);
    } else {
      SameRowsSameWorld(rules, w);
    }
  }

  lemma {:induction false} EnsureForChannelsKeeps(rules: Rules, w: World, event: nat, search: nat, channels: seq<Channel>, now: Instant)
    requires rules.policy.Valid() && Invariant(rules, w) && event in w.queue.events
    requires forall c :: c in channels && Receives(w.queue.assignments, search, c) ==> FirstAttemptIsDue(w, event, c.id)
    ensures var after := EnsureForChannels(w.queue.attempts, event, search, w.queue.assignments, channels, now);
            Invariant(rules, WithQueue(w, w.queue.(attempts := after)))
    decreases |channels|
  {
    if channels == [] {
      SameRowsSameWorld(rules, w);
    } else {
      var attempts := w.queue.attempts;
      var next := EnsureForChannel(attempts, event, search, w.queue.assignments, channels[0], now);
      var w1 := WithQueue(w, w.queue.(attempts := next));
      EnsureForChannelKeeps(rules, w, event, search, channels[0], now);
      forall d | d in channels[1..] && Receives(w.queue.assignments, search, d) ensures FirstAttemptIsDue(w1, event, d.id) {
        HasAttemptSurvives(attempts, next, event, d.id);
      }
      EnsureForChannelsKeeps(rules, w1, event, search, channels[1..], now);
      var after := EnsureForChannels(next, event, search, w.queue.assignments, channels[1..], now);
      EnsureForChannelsGrows(next, event, search, w.queue.assignments, channels[1..], now);
      TwoGrowthsAreOne(w, next, after);
    }
  }

  lemma TwoGrowthsAreOne(w: World, next: map<nat, Attempt>, after: map<nat, Attempt>)
    requires forall id :: id in next ==> id in after && after[id] == next[id]
    ensures var w1 := WithQueue(w, w.queue.(attempts := next));
            WithQueue(w1, w1.queue.(attempts := after)) == WithQueue(w, w.queue.(attempts := after))
  {
    PairsGrow(next, after);
    assert w.enqueued + Pairs(next) + Pairs(after) == w.enqueued + Pairs(after);
  }

  lemma HasAttemptSurvives(attempts: map<nat, Attempt>, after: map<nat, Attempt>, event: nat, channel: nat)
    requires forall id :: id in attempts ==> id in after && after[id] == attempts[id]
    ensures HasAttempt(attempts, event, channel, 1) ==> HasAttempt(after, event, channel, 1)
  {
  }

  lemma PairsGrow(attempts: map<nat, Attempt>, after: map<nat, Attempt>)
    requires forall id :: id in attempts ==> id in after && after[id] == attempts[id]
    ensures Pairs(attempts) <= Pairs(after)
  {
    forall p | p in Pairs(attempts) ensures p in Pairs(after) {
      var id :| id in attempts && attempts[id].Pair() == p;
      assert after[id].Pair() == p;
    }
  }

  lemma EnqueueKeeps(rules: Rules, w: World, eventId: nat, now: Instant)
    requires rules.policy.Valid() && Invariant(rules, w) && SafeToEnqueue(w, eventId)
    ensures Invariant(rules, Apply(rules, w, Enqueue(eventId, now)))
  {
    SameRowsSameWorld(rules, w);
    if Queues(w.queue, eventId) {
      EnsureForChannelsKeeps(rules, w, eventId, w.queue.events[eventId].search, w.queue.channels, now);
    }
  }

  lemma NewEventKeeps(rules: Rules, w: World, id: nat, event: Event)
    requires Invariant(rules, w) && id !in w.queue.events
    ensures Invariant(rules, w.(queue := w.queue.(events := w.queue.events[id := event])))
  {
    var w1 := w.(queue := w.queue.(events := w.queue.events[id := event]));
    forall p | p in w.enqueued ensures Bounded(rules, w1, p) && Accounted(rules, w1, p) {
      assert Bounded(rules, w, p) && Accounted(rules, w, p);
    }
    forall k | k in w.queue.attempts ensures RowInvariant(rules, w1, k, w1.queue.attempts[k]) {
      assert RowInvariant(rules, w, k, w.queue.attempts[k]);
    }
  }

  lemma CreateKeeps(rules: Rules, w: World, event: Event, now: Instant)
    requires rules.policy.Valid() && Invariant(rules, w)
    ensures Invariant(rules, Apply(rules, w, Create(event, now)))
  {
    SameRowsSameWorld(rules, w);
    if !HasKey(w.queue.events, event.key) && event.search in w.queue.searches {
      var id := NextId(w.queue.events.Keys);
      var w1 := w.(queue := w.queue.(events := w.queue.events[id := event]));
      NewEventKeeps(rules, w, id, event);
      SameRowsSameWorld(rules, w1);
      forall c | c in w.queue.channels ensures FirstAttemptIsDue(w1, id, c.id) {
        assert (id, c.id) in w.enqueued ==> Bounded(rules, w, (id, c.id));
      }
      EnsureForChannelsKeeps(rules, w1, id, event.search, w.queue.channels, now);
    }
  }

  /** A live row handed to a new owner. */
  function Taken(w: World, claim: ClaimedDelivery): World
    requires claim.id in w.queue.attempts
  {
    var row := w.queue.attempts[claim.id].(state := Claimed(claim.at, claim.token, claim.at + claim.lease));
    w.(queue := w.queue.(attempts := w.queue.attempts[claim.id := row]), claims := w.claims + [claim])
  }

  lemma TakenKeepsRows(rules: Rules, w: World, claim: ClaimedDelivery)
    requires RowsInvariant(rules, w) && claim.id in w.queue.attempts && w.queue.attempts[claim.id].Live()
    requires !Issued(w.claims, claim.token)
    requires claim.lease > 0 && Second(w.queue.attempts[claim.id].availableAt) <= Second(claim.at)
    ensures RowsInvariant(rules, Taken(w, claim))
  {
    var w' := Taken(w, claim);
    var attempts, after := w.queue.attempts, w'.queue.attempts;
    forall id | id in after ensures RowInvariant(rules, w', id, after[id]) {
      assert RowInvariant(rules, w, id, attempts[id]);
      LatestClaimAfter(w.claims, claim, id);
    }
    forall i, j | i in after && j in after && SameKey(after[i], after[j]) ensures i == j {
      assert SameKey(attempts[i], attempts[j]);
    }
    forall p | p in w'.enqueued ensures Bounded(rules, w', p) {
      assert Bounded(rules, w, p);
    }
  }

  lemma TakenKeeps(rules: Rules, w: World, claim: ClaimedDelivery)
    requires Invariant(rules, w) && claim.id in w.queue.attempts && w.queue.attempts[claim.id].Live()
    requires !Issued(w.claims, claim.token)
    requires claim.lease > 0 && Second(w.queue.attempts[claim.id].availableAt) <= Second(claim.at)
    ensures Invariant(rules, Taken(w, claim))
  {
    TakenKeepsRows(rules, w, claim);
    var w' := Taken(w, claim);
    forall p | p in w'.enqueued ensures Accounted(rules, w', p) {
      assert Accounted(rules, w, p);
      LiveSurvives(w.queue.attempts, w'.queue.attempts, p);
    }
  }

  lemma ClaimTakes(w: World, now: Instant, lease: Duration, token: Token)
    ensures match Claim(w.queue, now, lease, token)
            case (q, Ok(Some(claim))) =>
              && claim == ClaimedDelivery(claim.id, token, now, lease) && lease > 0
              && claim.id in w.queue.attempts && Due(w.queue.attempts[claim.id], now)
              && q == Taken(w, claim).queue
            case (q, _) => q == w.queue
  {
  }

  /** A due attempt is available, also when it is due because a lease ran out. */
  lemma DueIsAvailable(rules: Rules, w: World, id: nat, now: Instant)
    requires RowsInvariant(rules, w) && id in w.queue.attempts && Due(w.queue.attempts[id], now)
    ensures Second(w.queue.attempts[id].availableAt) <= Second(now)
  {
    assert RowInvariant(rules, w, id, w.queue.attempts[id]);
  }

  lemma TakeKeeps(rules: Rules, w: World, now: Instant, lease: Duration, token: Token)
    requires Invariant(rules, w) && !Issued(w.claims, token)
    ensures Invariant(rules, Apply(rules, w, Take(now, lease, token)))
  {
    var (q, r) := Claim(w.queue, now, lease, token);
    ClaimTakes(w, now, lease, token);
    if r.Ok? && r.value.Some? {
      DueIsAvailable(rules, w, r.value.value.id, now);
      TakenKeeps(rules, w, r.value.value);
      SameRowsSameWorld(rules, Taken(w, r.value.value));
    }
  }

  /** The claimed row turned into its outcome, with the completion on record. */
  function Concluded(w: World, claim: ClaimedDelivery, success: bool, at: Instant): World
    requires Owns(w.queue.attempts, claim)
  {
    var row := w.queue.attempts[claim.id];
    var done := w.queue.attempts[claim.id := row.(state := Done(success, row.state.claimedAt, at))];
    Record(w.(queue := w.queue.(attempts := done)), row.Pair(), success, at)
  }

  lemma ConcludedKeepsRows(rules: Rules, w: World, claim: ClaimedDelivery, success: bool, at: Instant)
    requires RowsInvariant(rules, w) && Owns(w.queue.attempts, claim)
    ensures RowsInvariant(rules, Concluded(w, claim, success, at))
    ensures var w1, p := Concluded(w, claim, success, at), w.queue.attempts[claim.id].Pair();
            && w1.Recorded(p).completions == w.queue.attempts[claim.id].number
            && (!success ==> w1.Recorded(p).successes == 0)
            && (success ==> w1.Recorded(p).successes == 1)
  {
    var attempts := w.queue.attempts;
    var row := attempts[claim.id];
    var p := row.Pair();
    var w1 := Concluded(w, claim, success, at);
    assert RowInvariant(rules, w, claim.id, row);
    forall id | id in w1.queue.attempts ensures RowInvariant(rules, w1, id, w1.queue.attempts[id]) {
      assert RowInvariant(rules, w, id, attempts[id]);
      assert attempts[id].Pair() == p && attempts[id].Live() ==> SameKey(attempts[id], row);
    }
    forall i, j | i in w1.queue.attempts && j in w1.queue.attempts && SameKey(w1.queue.attempts[i], w1.queue.attempts[j]) ensures i == j {
      assert SameKey(attempts[i], attempts[j]);
    }
    forall q | q in w1.enqueued ensures Bounded(rules, w1, q) {
      assert Bounded(rules, w, q);
    }
  }

  lemma ConcludedKeepsOthers(rules: Rules, w: World, claim: ClaimedDelivery, success: bool, at: Instant)
    requires Invariant(rules, w) && Owns(w.queue.attempts, claim)
    ensures var w1 := Concluded(w, claim, success, at);
            forall p :: p in w1.enqueued && p != w.queue.attempts[claim.id].Pair() ==> Accounted(rules, w1, p)
  {
    var w1 := Concluded(w, claim, success, at);
    forall p | p in w1.enqueued && p != w.queue.attempts[claim.id].Pair() ensures Accounted(rules, w1, p) {
      assert Accounted(rules, w, p);
      LiveSurvives(w.queue.attempts, w1.queue.attempts, p);
    }
  }

  /** What a failed attempt leaves behind when it is not the last one allowed. */
  function RetryOf(rules: Rules, row: Attempt, at: Instant): Attempt
    requires row.number >= 1
  {
    Attempt(row.event, row.channel, row.number + 1, at + Delay(rules.policy, row.number), Pending)
  }

  lemma RetryFollows(rules: Rules, w: World, claim: ClaimedDelivery, at: Instant)
    requires RowsInvariant(rules, w) && Owns(w.queue.attempts, claim)
    requires 1 <= w.queue.attempts[claim.id].number < rules.policy.maxAttempts
    ensures Follows(rules, Concluded(w, claim, false, at), RetryOf(rules, w.queue.attempts[claim.id], at))
  {
    ConcludedKeepsRows(rules, w, claim, false, at);
    var w1 := Concluded(w, claim, false, at);
    var row := w.queue.attempts[claim.id];
    assert RowInvariant(rules, w, claim.id, row);
    forall id | id in w1.queue.attempts ensures !SameKey(w1.queue.attempts[id], RetryOf(rules, row, at)) {
      assert RowInvariant(rules, w, id, w.queue.attempts[id]);
    }
  }

  /** A completion that brings no retry is the conclusion of its row, */
  lemma FinishWithoutRetry(rules: Rules, w: World, claim: ClaimedDelivery, success: bool, at: Instant)
    requires RowsInvariant(rules, w) && Complete(w.queue, rules.policy, claim, success, at).Ok?
    requires success || rules.policy.maxAttempts <= w.queue.attempts[claim.id].number
    ensures Apply(rules, w, Finish(claim, success, at)) == Concluded(w, claim, success, at)
  {
    ConcludedKeepsRows(rules, w, claim, success, at);
    SameRowsSameWorld(rules, Concluded(w, claim, success, at));
  }

  /** and a completion that brings one is the conclusion followed by the insertion. */
  lemma FinishWithRetry(rules: Rules, w: World, claim: ClaimedDelivery, at: Instant)
    requires Complete(w.queue, rules.policy, claim, false, at).Ok?
    requires 1 <= w.queue.attempts[claim.id].number < rules.policy.maxAttempts
    requires Follows(rules, Concluded(w, claim, false, at), RetryOf(rules, w.queue.attempts[claim.id], at))
    ensures Apply(rules, w, Finish(claim, false, at)) ==
              Inserted(Concluded(w, claim, false, at), RetryOf(rules, w.queue.attempts[claim.id], at))
  {
    var row, done := w.queue.attempts[claim.id], Concluded(w, claim, false, at).queue.attempts;
    assert !HasAttempt(done, row.event, row.channel, row.number + 1) by {
      assert forall id :: id in done ==> !SameKey(done[id], RetryOf(rules, row, at));
    }
  }

  lemma FinishKeeps(rules: Rules, w: World, claim: ClaimedDelivery, success: bool, at: Instant)
    requires Invariant(rules, w)
    ensures Invariant(rules, Apply(rules, w, Finish(claim, success, at)))
  {
    if Complete(w.queue, rules.policy, claim, success, at).Ok? {
      var row := w.queue.attempts[claim.id];
      assert RowInvariant(rules, w, claim.id, row);
      ConcludedKeepsRows(rules, w, claim, success, at);
      ConcludedKeepsOthers(rules, w, claim, success, at);
      if !success && row.number < rules.policy.maxAttempts {
        RetryFollows(rules, w, claim, at);
        FinishWithRetry(rules, w, claim, at);
        InsertKeeps(rules, Concluded(w, claim, success, at), RetryOf(rules, row, at));
      } else {
        FinishWithoutRetry(rules, w, claim, success, at);
        assert Accounted(rules, Concluded(w, claim, success, at), row.Pair());
      }
    }
  }

  /** Dropping terminal rows. */
  lemma DroppingTerminalRowsKeeps(rules: Rules, w: World, kept: map<nat, Attempt>)
    requires Invariant(rules, w)
    requires forall id :: id in kept ==> id in w.queue.attempts && kept[id] == w.queue.attempts[id]
    requires forall id :: id in w.queue.attempts && w.queue.attempts[id].Live() ==> id in kept
    ensures Invariant(rules, WithQueue(w, w.queue.(attempts := kept)))
  {
    var w' := WithQueue(w, w.queue.(attempts := kept));
    PairsGrow(kept, w.queue.attempts);
    SameRowsSameWorld(rules, w);
    assert w'.enqueued == w.enqueued;
    forall id | id in kept ensures RowInvariant(rules, w', id, kept[id]) {
      assert RowInvariant(rules, w, id, w.queue.attempts[id]);
    }
    forall p | p in w'.enqueued ensures Bounded(rules, w', p) && Accounted(rules, w', p) {
      assert Bounded(rules, w, p) && Accounted(rules, w, p);
      LiveSurvives(w.queue.attempts, kept, p);
    }
  }

  lemma PruneKeeps(rules: Rules, w: World, now: Instant)
    requires Invariant(rules, w)
    ensures Invariant(rules, Apply(rules, w, PruneAttempts(now)))
  {
    PruneKeepsTheNewest(w.queue.attempts, rules.retention, now);
    DroppingTerminalRowsKeeps(rules, w, Prune(w.queue.attempts, rules.retention, now));
  }

  lemma SetKeeps(rules: Rules, w: World, action: Action)
    requires Invariant(rules, w) && (action.SetChannels? || action.SetAssignments? || action.SetPreferences?)
    ensures Invariant(rules, Apply(rules, w, action))
  {
    var w' := Apply(rules, w, action);
    forall id | id in w'.queue.attempts ensures RowInvariant(rules, w', id, w'.queue.attempts[id]) {
      assert RowInvariant(rules, w, id, w.queue.attempts[id]);
    }
    forall p | p in w'.enqueued ensures Bounded(rules, w', p) && Accounted(rules, w', p) {
      assert Bounded(rules, w, p) && Accounted(rules, w, p);
    }
  }

  /** Every allowed action keeps the invariant. */
  lemma ApplyKeeps(rules: Rules, w: World, action: Action)
    requires rules.policy.Valid() && Invariant(rules, w) && Allowed(w, action)
    ensures Invariant(rules, Apply(rules, w, action))
  {
    match action
    case Create(event, now) => CreateKeeps(rules, w, event, now);
    case Enqueue(eventId, now) => EnqueueKeeps(rules, w, eventId, now);
    case Take(now, lease, token) => TakeKeeps(rules, w, now, lease, token);
    case Finish(claim, success, at) => FinishKeeps(rules, w, claim, success, at);
    case PruneAttempts(now) => PruneKeeps(rules, w, now);
    case _ => SetKeeps(rules, w, action);
  }

  lemma {:induction false} RunKeeps(rules: Rules, w: World, actions: seq<Action>)
    requires rules.policy.Valid() && Invariant(rules, w) && AllowedRun(rules, w, actions)
    ensures Invariant(rules, Run(rules, w, actions))
    decreases |actions|
  {
    if actions != [] {
      ApplyKeeps(rules, w, actions[0]);
      RunKeeps(rules, Apply(rules, w, actions[0]), actions[1..]);
    }
  }
}
