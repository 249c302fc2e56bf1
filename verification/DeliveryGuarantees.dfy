/** What the delivery queue guarantees at every state that any run can reach. */
module DeliveryGuarantees {
  import opened Domain
  import opened Wrappers
  import opened Timestamps
  import opened Ordering
  import opened DeliveryQueue
  import opened DeliveryRuns

  lemma ReachableInvariant(rules: Rules, start: World, actions: seq<Action>)
    requires rules.policy.Valid() && Initial(start) && AllowedRun(rules, start, actions)
    ensures Invariant(rules, Run(rules, start, actions))
  {
    RunKeeps(rules, start, actions);
  }

  // ---------- At most one live attempt, at most one success, bounded completions ----------

  predicate OneLiveAttempt(attempts: map<nat, Attempt>, p: Pair) {
    forall i, j :: i in attempts && j in attempts && attempts[i].Pair() == p && attempts[j].Pair() == p && attempts[i].Live() ==>
      attempts[j].number <= attempts[i].number && (attempts[j].Live() ==> i == j)
  }

  /** For every pair, over every run: at most one attempt is live and it has the greatest number;
      at most one success and at most `maxAttempts` completions are ever recorded, counting rows
      that were pruned; and a queued pair is delivered, exhausted or live, exactly one of them. */
  lemma DeliverySafety(rules: Rules, start: World, actions: seq<Action>, p: Pair)
    requires rules.policy.Valid() && Initial(start) && AllowedRun(rules, start, actions)
    ensures var w := Run(rules, start, actions);
            && OneLiveAttempt(w.queue.attempts, p)
            && w.Recorded(p).successes <= 1
            && w.Recorded(p).completions <= rules.policy.maxAttempts
            && (p in w.enqueued ==>
                  (HasLive(w.queue.attempts, p) <==>
                   w.Recorded(p).successes == 0 && w.Recorded(p).completions < rules.policy.maxAttempts))
  {
    ReachableInvariant(rules, start, actions);
    var w := Run(rules, start, actions);
    var attempts := w.queue.attempts;
    assert p in w.enqueued ==> Bounded(rules, w, p) && Accounted(rules, w, p);
    forall i, j | i in attempts && j in attempts && attempts[i].Pair() == p && attempts[j].Pair() == p && attempts[i].Live()
      ensures attempts[j].number <= attempts[i].number && (attempts[j].Live() ==> i == j)
    {
      assert RowInvariant(rules, w, i, attempts[i]) && RowInvariant(rules, w, j, attempts[j]);
      if attempts[j].Live() { assert SameKey(attempts[i], attempts[j]); }
    }
    forall i | i in attempts && attempts[i].Pair() == p && attempts[i].Live()
      ensures w.Recorded(p).successes == 0 && w.Recorded(p).completions < rules.policy.maxAttempts
    {
      assert RowInvariant(rules, w, i, attempts[i]);
    }
  }

  /** A delivered pair is never claimed again, whatever was pruned. */
  lemma DeliveredIsNeverClaimedAgain(rules: Rules, start: World, actions: seq<Action>, now: Instant, lease: Duration, token: Token)
    requires rules.policy.Valid() && Initial(start) && AllowedRun(rules, start, actions)
    ensures var w := Run(rules, start, actions);
            match Claim(w.queue, now, lease, token).1
            case Ok(Some(claim)) => w.Recorded(w.queue.attempts[claim.id].Pair()).successes == 0
            case _ => true
  {
    ReachableInvariant(rules, start, actions);
    var w := Run(rules, start, actions);
    ClaimTakes(w, now, lease, token);
    var (_, r) := Claim(w.queue, now, lease, token);
    if r.Ok? && r.value.Some? {
      assert RowInvariant(rules, w, r.value.value.id, w.queue.attempts[r.value.value.id]);
    }
  }

  // ---------- Claims ----------

  /** `claims[i]` is the last claim ever issued on its attempt id. */
  predicate IsLatest(claims: seq<ClaimedDelivery>, i: nat)
    requires i < |claims|
  {
    forall j :: i < j < |claims| ==> claims[j].id != claims[i].id
  }

  lemma {:induction false} LatestClaimIsLatest(claims: seq<ClaimedDelivery>, i: nat)
    requires i < |claims| && DistinctTokens(claims)
    ensures LatestClaim(claims, claims[i].id) == Some(claims[i]) <==> IsLatest(claims, i)
    decreases |claims|
  {
    var last := |claims| - 1;
    if i < last {
      if claims[last].id == claims[i].id {
        assert claims[last].token != claims[i].token;
      } else {
        LatestClaimIsLatest(claims[..last], i);
        assert IsLatest(claims, i) <==> IsLatest(claims[..last], i);
      }
    }
  }

  /** Exactly the most recently issued claim on a row that is claimed can still complete it, no
      matter that ids of pruned rows are used again; any other claim is stale and changes nothing. */
  lemma OnlyTheLatestClaimOwns(rules: Rules, start: World, actions: seq<Action>, i: nat, success: bool, at: Instant)
    requires rules.policy.Valid() && Initial(start) && AllowedRun(rules, start, actions)
    requires i < |Run(rules, start, actions).claims|
    ensures var w := Run(rules, start, actions);
            var claim := w.claims[i];
            && (Owns(w.queue.attempts, claim) <==>
                claim.id in w.queue.attempts && w.queue.attempts[claim.id].state.Claimed? && IsLatest(w.claims, i))
            && (!Owns(w.queue.attempts, claim) ==>
                  && Complete(w.queue, rules.policy, claim, success, at) == Raised(StaleClaim)
                  && Apply(rules, w, Finish(claim, success, at)) == w)
  {
    ReachableInvariant(rules, start, actions);
    var w := Run(rules, start, actions);
    var claim := w.claims[i];
    LatestClaimIsLatest(w.claims, i);
    if claim.id in w.queue.attempts && w.queue.attempts[claim.id].state.Claimed? {
      assert RowInvariant(rules, w, claim.id, w.queue.attempts[claim.id]);
      LatestClaimIsIssued(w.claims, claim.id);
      var k :| 0 <= k < |w.claims| && w.claims[k] == LatestClaim(w.claims, claim.id).value;
      if Owns(w.queue.attempts, claim) {
        assert k == i;
      }
    }
  }

  /** A completion is accepted exactly when its claim is the latest one on a row that is still
      claimed, and the text of its time does not sort before that of the claim. A refused one changes nothing. */
  lemma CompletionIsAcceptedExactlyWhen(rules: Rules, start: World, actions: seq<Action>, i: nat, success: bool, at: Instant)
    requires rules.policy.Valid() && Initial(start) && AllowedRun(rules, start, actions)
    requires i < |Run(rules, start, actions).claims|
    ensures var w := Run(rules, start, actions);
            var claim := w.claims[i];
            Complete(w.queue, rules.policy, claim, success, at).Ok? <==>
              && claim.id in w.queue.attempts && w.queue.attempts[claim.id].state.Claimed? && IsLatest(w.claims, i)
              && StoredAtMost(claim.at, at)
    ensures var w := Run(rules, start, actions);
            Complete(w.queue, rules.policy, w.claims[i], success, at).Raised? ==> Apply(rules, w, Finish(w.claims[i], success, at)) == w
  {
    ReachableInvariant(rules, start, actions);
    OnlyTheLatestClaimOwns(rules, start, actions, i, success, at);
    var w := Run(rules, start, actions);
    var claim := w.claims[i];
    hide Run;
    if Owns(w.queue.attempts, claim) {
      assert RowInvariant(rules, w, claim.id, w.queue.attempts[claim.id]);
      LatestClaimIsLatest(w.claims, i);
    }
  }

  /** In clock terms, for a completion no earlier than its claim: it is refused exactly in the rest
      of the second of a claim that was taken on a full second. */
  lemma CompletionIsAcceptedUnlessInTheFullSecond(rules: Rules, start: World, actions: seq<Action>, i: nat, success: bool, at: Instant)
    requires rules.policy.Valid() && Initial(start) && AllowedRun(rules, start, actions)
    requires i < |Run(rules, start, actions).claims| && Run(rules, start, actions).claims[i].at <= at
    ensures var w := Run(rules, start, actions);
            var claim := w.claims[i];
            Complete(w.queue, rules.policy, claim, success, at).Ok? <==>
              && claim.id in w.queue.attempts && w.queue.attempts[claim.id].state.Claimed? && IsLatest(w.claims, i)
              && (claim.at == at || Micros(claim.at) != 0 || Second(claim.at) != Second(at))
  {
    CompletionIsAcceptedExactlyWhen(rules, start, actions, i, success, at);
    LaterIsStoredAtMost(Run(rules, start, actions).claims[i].at, at);
    hide Run, Complete;
  }

  /** A lease is respected to the second: whoever takes over a claimed row does so later than one
      second before the end of the previous owner's lease. */
  lemma ReclaimWaitsForTheLease(rules: Rules, start: World, actions: seq<Action>, now: Instant, lease: Duration, token: Token)
    requires rules.policy.Valid() && Initial(start) && AllowedRun(rules, start, actions)
    ensures var w := Run(rules, start, actions);
            match Claim(w.queue, now, lease, token).1
            case Ok(Some(claim)) =>
              w.queue.attempts[claim.id].state.Claimed? ==>
                var previous := LatestClaim(w.claims, claim.id);
                previous.Some? && now > previous.value.at + previous.value.lease - SECOND
            case _ => true
  {
    ReachableInvariant(rules, start, actions);
    var w := Run(rules, start, actions);
    ClaimTakes(w, now, lease, token);
    var (_, r) := Claim(w.queue, now, lease, token);
    if r.Ok? && r.value.Some? {
      assert RowInvariant(rules, w, r.value.value.id, w.queue.attempts[r.value.value.id]);
    }
  }

  /** The attempt after a failure is never claimed earlier than its delay, less one second, after
      that failure, also when it is claimed a second time. */
  lemma RetryIsNeverEarly(rules: Rules, start: World, actions: seq<Action>, now: Instant, lease: Duration, token: Token)
    requires rules.policy.Valid() && Initial(start) && AllowedRun(rules, start, actions)
    ensures var w := Run(rules, start, actions);
            match Claim(w.queue, now, lease, token).1
            case Ok(Some(claim)) =>
              var a := w.queue.attempts[claim.id];
              a.number > 1 ==>
                && w.Recorded(a.Pair()).completions == a.number - 1
                && now > w.Recorded(a.Pair()).lastCompletion + Delay(rules.policy, a.number - 1) - SECOND
            case _ => true
  {
    ReachableInvariant(rules, start, actions);
    var w := Run(rules, start, actions);
    ClaimTakes(w, now, lease, token);
    var (_, r) := Claim(w.queue, now, lease, token);
    if r.Ok? && r.value.Some? {
      assert RowInvariant(rules, w, r.value.value.id, w.queue.attempts[r.value.value.id]);
      DueIsAvailable(rules, w, r.value.value.id, now);
    }
  }

  /** In any state, a claim takes the eligible attempt that is least by (available second, id) and
      nothing only when nothing is eligible; it changes that row's state and nothing else. */
  lemma ClaimTakesTheLeastEligible(q: Queue, now: Instant, lease: Duration, token: Token)
    requires 0 < lease <= MAX_LEASE
    requires forall id :: id in q.attempts ==> !HoldsToken(q.attempts, id, token)
    ensures var (q', r) := Claim(q, now, lease, token);
            && r.Ok?
            && (r.value.None? <==> forall id :: id in q.attempts ==> !Eligible(q, id, now))
            && (r.value.None? ==> q' == q)
            && (r.value.Some? ==>
                  var id := r.value.value.id;
                  && id in q.attempts && Eligible(q, id, now)
                  && (forall other :: other in q.attempts && Eligible(q, other, now) && other != id ==>
                        var mine, theirs := Second(q.attempts[id].availableAt), Second(q.attempts[other].availableAt);
                        mine < theirs || (mine == theirs && id < other))
                  && q'.attempts == q.attempts[id := q.attempts[id].(state := Claimed(now, token, now + lease))]
                  && q' == q.(attempts := q'.attempts))
  {
    var eligible := EligibleIds(q, now);
    forall id | id in q.attempts && Eligible(q, id, now) ensures id in eligible {
    }
  }

  // ---------- Who is told ----------

  lemma {:induction false} EnsureForChannelsIsExact(attempts: map<nat, Attempt>, event: nat, search: nat, assignments: set<(nat, nat)>,
                                                    channels: seq<Channel>, now: Instant, channel: nat, number: nat)
    ensures HasAttempt(EnsureForChannels(attempts, event, search, assignments, channels, now), event, channel, number) <==>
              || HasAttempt(attempts, event, channel, number)
              || (number == 1 && exists c :: c in channels && c.id == channel && Receives(assignments, search, c))
    decreases |channels|
  {
    if channels != [] {
      EnsureForChannelIsExact(attempts, event, search, assignments, channels[0], now, channel, number);
      hide HasAttempt, Receives, EnsureForChannel;
      var next := EnsureForChannel(attempts, event, search, assignments, channels[0], now);
      EnsureForChannelsIsExact(next, event, search, assignments, channels[1..], now, channel, number);
      assert EnsureForChannels(attempts, event, search, assignments, channels, now)
          == EnsureForChannels(next, event, search, assignments, channels[1..], now);
      assert forall d :: d in channels <==> d == channels[0] || d in channels[1..];
    }
  }

  lemma EnsureForChannelIsExact(attempts: map<nat, Attempt>, event: nat, search: nat, assignments: set<(nat, nat)>,
                                c: Channel, now: Instant, channel: nat, number: nat)
    ensures var next := EnsureForChannel(attempts, event, search, assignments, c, now);
            && next == (if Receives(assignments, search, c) then EnsureAttempt(attempts, event, c.id, 1, now) else attempts)
            && (HasAttempt(next, event, channel, number) <==>
                  HasAttempt(attempts, event, channel, number) || (number == 1 && c.id == channel && Receives(assignments, search, c)))
  {
    if Receives(assignments, search, c) && !HasAttempt(attempts, event, c.id, 1) {
      var id, a := NextId(attempts.Keys), Attempt(event, c.id, 1, now, Pending);
      var next := attempts[id := a];
      assert next[id] == a;
      if HasAttempt(attempts, event, channel, number) {
        var k :| k in attempts && attempts[k].event == event && attempts[k].channel == channel && attempts[k].number == number;
        assert next[k] == attempts[k];
      }
      if HasAttempt(next, event, channel, number) {
        var k :| k in next && next[k].event == event && next[k].channel == channel && next[k].number == number;
        assert k != id ==> attempts[k] == next[k];
      }
    }
  }

  /** A created event is queued for exactly the enabled channels assigned to its search, once each,
      if the search wants events of its kind, and for no channel otherwise. */
  lemma CreatedEventReachesExactlyItsChannels(q: Queue, event: Event, now: Instant, channel: nat, number: nat)
    requires !HasKey(q.events, event.key) && event.search in q.searches
    requires forall id :: id in q.attempts ==> q.attempts[id].event in q.events
    ensures var id, r := NextId(q.events.Keys), CreateEvent(q, event, now);
            && r.Ok? && id !in q.events && r.value.events == q.events[id := event]
            && (HasAttempt(r.value.attempts, id, channel, number) <==>
                  && number == 1 && PreferencesFor(q, event.search).Enables(event.kind)
                  && exists c :: c in q.channels && c.id == channel && Receives(q.assignments, event.search, c))
  {
    var id := NextId(q.events.Keys);
    assert !HasAttempt(q.attempts, id, channel, number);
    EnsureForChannelsIsExact(q.attempts, id, event.search, q.assignments, q.channels, now, channel, number);
  }

  // ---------- The two calls that are left out of the runs ----------

  /** Queueing an event again keeps the guarantees exactly when it inserts no first attempt for a
      pair that has already seen a completion. */
  lemma EnqueueKeepsExactlyWhenSafe(rules: Rules, w: World, eventId: nat, now: Instant)
    requires rules.policy.Valid() && Invariant(rules, w)
    ensures Invariant(rules, Apply(rules, w, Enqueue(eventId, now))) <==> SafeToEnqueue(w, eventId)
  {
    if SafeToEnqueue(w, eventId) {
      EnqueueKeeps(rules, w, eventId, now);
    } else {
      var e := w.queue.events[eventId];
      var c :| c in w.queue.channels && Receives(w.queue.assignments, e.search, c) && !FirstAttemptIsDue(w, eventId, c.id);
      var after := Apply(rules, w, Enqueue(eventId, now)).queue.attempts;
      EnsureForChannelsInserts(w.queue.attempts, eventId, e.search, w.queue.assignments, w.queue.channels, c, now);
      var id :| id in after && after[id] == Attempt(eventId, c.id, 1, now, Pending);
      assert after[id].Pair() == (eventId, c.id);
      assert !RowInvariant(rules, Apply(rules, w, Enqueue(eventId, now)), id, after[id]);
    }
  }

  lemma {:induction false} EnsureForChannelsInserts(attempts: map<nat, Attempt>, event: nat, search: nat,
                                                    assignments: set<(nat, nat)>, channels: seq<Channel>, c: Channel, now: Instant)
    requires c in channels && Receives(assignments, search, c) && !HasAttempt(attempts, event, c.id, 1)
    ensures var after := EnsureForChannels(attempts, event, search, assignments, channels, now);
            exists id :: id in after && id !in attempts && after[id] == Attempt(event, c.id, 1, now, Pending)
    decreases |channels|
  {
    var next := EnsureForChannel(attempts, event, search, assignments, channels[0], now);
    EnsureForChannelsGrows(next, event, search, assignments, channels[1..], now);
    if channels[0].id == c.id && Receives(assignments, search, channels[0]) {
      var id := NextId(attempts.Keys);
      assert next[id] == Attempt(event, c.id, 1, now, Pending);
      var after := EnsureForChannels(attempts, event, search, assignments, channels, now);
      assert after == EnsureForChannels(next, event, search, assignments, channels[1..], now);
      assert id in after && id !in attempts && after[id] == next[id];
    } else {
      assert c in channels[1..];
      assert !HasAttempt(next, event, c.id, 1);
      EnsureForChannelsInserts(next, event, search, assignments, channels[1..], c, now);
    }
  }

  predicate TwoLive(attempts: map<nat, Attempt>, p: Pair) {
    exists i, j :: i in attempts && j in attempts && i != j && attempts[i].Pair() == p && attempts[j].Pair() == p &&
                   attempts[i].Live() && attempts[j].Live()
  }

  /** What an unsafe enqueue does: a second live attempt, or a live attempt for a pair that was
      already delivered or had used up its attempts. */
  lemma UnsafeEnqueueBreaks(rules: Rules, w: World, eventId: nat, c: Channel, now: Instant)
    requires rules.policy.Valid() && Invariant(rules, w) && Queues(w.queue, eventId)
    requires c in w.queue.channels && Receives(w.queue.assignments, w.queue.events[eventId].search, c)
    requires !FirstAttemptIsDue(w, eventId, c.id)
    ensures var p, w' := (eventId, c.id), Apply(rules, w, Enqueue(eventId, now));
            && HasLive(w'.queue.attempts, p)
            && (TwoLive(w'.queue.attempts, p) || w.Recorded(p).successes == 1 || w.Recorded(p).completions == rules.policy.maxAttempts)
  {
    var e, attempts, p := w.queue.events[eventId], w.queue.attempts, (eventId, c.id);
    var after := Apply(rules, w, Enqueue(eventId, now)).queue.attempts;
    EnsureForChannelsInserts(attempts, eventId, e.search, w.queue.assignments, w.queue.channels, c, now);
    EnsureForChannelsGrows(attempts, eventId, e.search, w.queue.assignments, w.queue.channels, now);
    var id :| id in after && id !in attempts && after[id] == Attempt(eventId, c.id, 1, now, Pending);
    assert after[id].Pair() == p;
    assert p in w.enqueued && Accounted(rules, w, p);
    if HasLive(attempts, p) {
      var j :| j in attempts && attempts[j].Pair() == p && attempts[j].Live();
      assert after[j].Live() && after[j].Pair() == p;
    }
  }

  const NEW_LISTING: Event := Event(1, NewListing, NewListingKey(Pisoscom, 1), 1, 0, None, None)

  /** One event on one channel: created, claimed, completed, and pruned once it is old. */
  function AnEventAgedOut(rules: Rules, success: bool): seq<Action> {
    [Create(NEW_LISTING, 0), Take(0, SECOND, 0), Finish(CLAIM, success, 0),
     PruneAttempts((rules.retention.days * DAY_SECONDS + 1) * SECOND)]
  }

  function OneChannel(attempts: map<nat, Attempt>, events: map<nat, Event>): Queue {
    Queue({1}, [Channel(1, true)], {(1, 1)}, map[], events, attempts)
  }

  lemma CreateInOneChannel()
    ensures CreateEvent(OneChannel(map[], map[]), NEW_LISTING, 0) ==
              Ok(OneChannel(map[1 := FRESH], map[1 := NEW_LISTING]))
  {
    var q := OneChannel(map[], map[1 := NEW_LISTING]);
    var none: set<nat> := {};
    assert NextId(none) == 1;
    assert EnsureForChannels(map[], 1, 1, q.assignments, q.channels[1..], 0) == map[];
  }

  const FRESH: Attempt := Attempt(1, 1, 1, 0, Pending)
  const TAKEN: Attempt := Attempt(1, 1, 1, 0, Claimed(0, 0, SECOND))
  const CLAIM: ClaimedDelivery := ClaimedDelivery(1, 0, 0, SECOND)

  lemma TakeInOneChannel()
    ensures var q := OneChannel(map[1 := FRESH], map[1 := NEW_LISTING]);
            Claim(q, 0, SECOND, 0) == (OneChannel(map[1 := TAKEN], map[1 := NEW_LISTING]), Ok(Some(CLAIM)))
  {
    var q := OneChannel(map[1 := FRESH], map[1 := NEW_LISTING]);
    assert q.channels[0].enabled;
    assert Eligible(q, 1, 0);
    assert EligibleIds(q, 0) == {1};
    assert map[1 := FRESH][1 := TAKEN] == map[1 := TAKEN];
  }

  function Finished(policy: RetryPolicy, success: bool): map<nat, Attempt>
    requires policy.Valid()
  {
    var done := map[1 := Attempt(1, 1, 1, 0, Done(success, 0, 0))];
    if success || policy.maxAttempts == 1 then done else done[2 := Attempt(1, 1, 2, Delay(policy, 1), Pending)]
  }

  lemma FinishInOneChannel(policy: RetryPolicy, success: bool)
    requires policy.Valid()
    ensures Complete(OneChannel(map[1 := TAKEN], map[1 := NEW_LISTING]), policy, CLAIM, success, 0) ==
              Ok(OneChannel(Finished(policy, success), map[1 := NEW_LISTING]))
  {
    var row := TAKEN.(state := Done(success, 0, 0));
    var done := map[1 := row];
    assert map[1 := TAKEN][1 := row] == done;
    assert NextId(done.Keys) == 2 by { assert 1 in done.Keys; }
    assert !HasAttempt(done, 1, 1, 2);
    hide Delay;
  }

  function Aged(rules: Rules, success: bool): World
    requires rules.policy.Valid()
  {
    var now := (rules.retention.days * DAY_SECONDS + 1) * SECOND;
    World(OneChannel(Prune(Finished(rules.policy, success), rules.retention, now), map[1 := NEW_LISTING]),
          map[(1, 1) := Tally(1, if success then 1 else 0, 0)], [CLAIM], {(1, 1)})
  }

  const EMPTY: World := World(OneChannel(map[], map[]), map[], [], {})
  const QUEUED: World := World(OneChannel(map[1 := FRESH], map[1 := NEW_LISTING]), map[], [], {(1, 1)})
  const CLAIMED: World := World(OneChannel(map[1 := TAKEN], map[1 := NEW_LISTING]), map[], [CLAIM], {(1, 1)})

  function Completed(policy: RetryPolicy, success: bool): World
    requires policy.Valid()
  {
    World(OneChannel(Finished(policy, success), map[1 := NEW_LISTING]),
          map[(1, 1) := Tally(1, if success then 1 else 0, 0)], [CLAIM], {(1, 1)})
  }

  lemma QueuesAndClaims(rules: Rules)
    ensures Apply(rules, EMPTY, Create(NEW_LISTING, 0)) == QUEUED
    ensures Apply(rules, QUEUED, Take(0, SECOND, 0)) == CLAIMED
  {
    CreateInOneChannel();
    TakeInOneChannel();
    hide CreateEvent, Claim;
    OnePair(map[1 := FRESH], 1);
    OnePair(map[1 := TAKEN], 1);
  }

  /** A completion that is refused although its claim is the latest: the event was claimed on a full
      second and sent within it. The row stays claimed, and once the lease has expired the next
      worker claims it and sends it again. */
  lemma RefusedCompletionIsSentAgain(rules: Rules, success: bool, at: Instant, now: Instant, lease: Duration, token: Token)
    requires rules.policy.Valid() && 0 < at < SECOND <= now && 0 < lease <= MAX_LEASE && token != CLAIM.token
    ensures var actions := [Create(NEW_LISTING, 0), Take(0, SECOND, 0)];
            var w := Run(rules, EMPTY, actions);
            && Initial(EMPTY) && AllowedRun(rules, EMPTY, actions)
            && w.claims == [CLAIM] && Owns(w.queue.attempts, CLAIM)
            && Complete(w.queue, rules.policy, CLAIM, success, at) == Raised(IntegrityError)
            && Apply(rules, w, Finish(CLAIM, success, at)) == w
            && Claim(w.queue, now, lease, token).1 == Ok(Some(ClaimedDelivery(CLAIM.id, token, now, lease)))
  {
    QueuesAndClaims(rules);
    TwoSteps(rules, EMPTY, QUEUED, CLAIMED, [Create(NEW_LISTING, 0), Take(0, SECOND, 0)]);
    var q := CLAIMED.queue;
    assert Second(at) == 0 == Second(0) && Micros(0) == 0;
    assert q.channels[0].enabled && Eligible(q, 1, now);
    assert EligibleIds(q, now) == {1};
    hide Run, AllowedRun;
  }

  lemma TwoSteps(rules: Rules, w0: World, w1: World, w2: World, actions: seq<Action>)
    requires |actions| == 2 && Apply(rules, w0, actions[0]) == w1 && Apply(rules, w1, actions[1]) == w2
    requires Allowed(w0, actions[0]) && Allowed(w1, actions[1])
    ensures Run(rules, w0, actions) == w2 && AllowedRun(rules, w0, actions)
  {
    hide Apply, Allowed;
    assert actions[1..][1..] == [];
    assert Run(rules, w1, actions[1..]) == w2 && AllowedRun(rules, w1, actions[1..]);
  }

  lemma OnePair(attempts: map<nat, Attempt>, id: nat)
    requires id in attempts && forall other :: other in attempts ==> attempts[other].Pair() == (1, 1)
    ensures Pairs(attempts) == {(1, 1)}
  {
    assert attempts[id].Pair() in Pairs(attempts);
  }

  lemma FinishedPairs(policy: RetryPolicy, success: bool)
    requires policy.Valid()
    ensures Pairs(Finished(policy, success)) == {(1, 1)}
  {
    hide Delay;
    OnePair(Finished(policy, success), 1);
  }

  lemma Completes(rules: Rules, success: bool)
    requires rules.policy.Valid()
    ensures Apply(rules, CLAIMED, Finish(CLAIM, success, 0)) == Completed(rules.policy, success)
  {
    FinishInOneChannel(rules.policy, success);
    FinishedPairs(rules.policy, success);
    var none: map<Pair, Tally> := map[];
    var t := Tally(1, if success then 1 else 0, 0);
    assert none[(1, 1) := t] == map[(1, 1) := t];
    hide Complete, Finished, Pairs;
  }

  lemma Prunes(rules: Rules, success: bool)
    requires rules.policy.Valid()
    ensures Apply(rules, Completed(rules.policy, success), AnEventAgedOut(rules, success)[3]) == Aged(rules, success)
  {
    hide Prune, Finished, Pairs, Delay;
    var rows, now := Finished(rules.policy, success), (rules.retention.days * DAY_SECONDS + 1) * SECOND;
    FinishedPairs(rules.policy, success);
    PruneKeepsPairs(rows, rules.retention, now);
    assert AnEventAgedOut(rules, success)[3] == PruneAttempts(now);
  }

  lemma AnEventAgesOut(rules: Rules, success: bool)
    requires rules.policy.Valid()
    ensures Run(rules, EMPTY, AnEventAgedOut(rules, success)) == Aged(rules, success)
    ensures AllowedRun(rules, EMPTY, AnEventAgedOut(rules, success))
  {
    QueuesAndClaims(rules);
    Completes(rules, success);
    Prunes(rules, success);
    hide Apply, Run, AllowedRun, Completed, Aged;
    FourSteps(rules, EMPTY, QUEUED, CLAIMED, Completed(rules.policy, success), Aged(rules, success), AnEventAgedOut(rules, success));
  }

  lemma FourSteps(rules: Rules, w0: World, w1: World, w2: World, w3: World, w4: World, actions: seq<Action>)
    requires |actions| == 4
    requires Apply(rules, w0, actions[0]) == w1 && Apply(rules, w1, actions[1]) == w2
    requires Apply(rules, w2, actions[2]) == w3 && Apply(rules, w3, actions[3]) == w4
    requires Allowed(w0, actions[0]) && Allowed(w1, actions[1]) && Allowed(w2, actions[2]) && Allowed(w3, actions[3])
    ensures Run(rules, w0, actions) == w4 && AllowedRun(rules, w0, actions)
  {
    hide Apply, Allowed;
    assert actions[3..][1..] == [];
    assert Run(rules, w3, actions[3..]) == w4 && AllowedRun(rules, w3, actions[3..]);
    assert actions[2..][1..] == actions[3..] && actions[1..][1..] == actions[2..];
    assert Run(rules, w2, actions[2..]) == w4 && AllowedRun(rules, w2, actions[2..]);
    assert Run(rules, w1, actions[1..]) == w4 && AllowedRun(rules, w1, actions[1..]);
  }

  lemma PruneKeepsPairs(attempts: map<nat, Attempt>, retention: Retention, now: Instant)
    requires Pairs(attempts) == {(1, 1)}
    ensures Pairs(Prune(attempts, retention, now)) <= {(1, 1)}
  {
    PruneKeepsTheNewest(attempts, retention, now);
    var kept := Prune(attempts, retention, now);
    forall p | p in Pairs(kept) ensures p == (1, 1) {
      var id :| id in kept && kept[id].Pair() == p;
      assert attempts[id].Pair() in Pairs(attempts);
    }
  }

  lemma AgedHasNoFirstAttempt(rules: Rules, success: bool)
    requires rules.policy.Valid()
    ensures !FirstAttemptIsDue(Aged(rules, success), 1, 1)
  {
    var rows, now := Finished(rules.policy, success), (rules.retention.days * DAY_SECONDS + 1) * SECOND;
    assert Cutoff(rules.retention, now) == SECOND;
    assert 1 in AgedIds(rows, SECOND);
    hide Delay;
  }

  /** Why queueing again after pruning is left out of the runs. An allowed run from empty tables
      reaches a state where it makes a second attempt live, or revives a delivered or exhausted pair. */
  lemma EnqueueAfterPruningBreaks(rules: Rules, success: bool, now: Instant)
    requires rules.policy.Valid()
    ensures var w := Run(rules, EMPTY, AnEventAgedOut(rules, success));
            var after := Apply(rules, w, Enqueue(1, now)).queue.attempts;
            && Initial(EMPTY) && AllowedRun(rules, EMPTY, AnEventAgedOut(rules, success))
            && HasLive(after, (1, 1))
            && (if success then w.Recorded((1, 1)).successes == 1
                else if rules.policy.maxAttempts == 1 then w.Recorded((1, 1)).completions == 1
                else TwoLive(after, (1, 1)))
  {
    var w := Aged(rules, success);
    AnEventAgesOut(rules, success);
    AgedHasNoFirstAttempt(rules, success);
    ReachableInvariant(rules, EMPTY, AnEventAgedOut(rules, success));
    assert w.queue.channels[0] == Channel(1, true);
    UnsafeEnqueueBreaks(rules, w, 1, Channel(1, true), now);
    hide Invariant, FirstAttemptIsDue, Prune, TwoLive, HasLive, Run, AllowedRun, Apply;
  }

  /** The world after `create_retry`. */
  function Retried(w: World, event: nat, channel: nat, now: Instant): World {
    match CreateRetry(w.queue, event, channel, now)
    case Ok(q) => WithQueue(w, q)
    case Raised(_) => w
  }

  lemma NextNumberIsUnused(attempts: map<nat, Attempt>, event: nat, channel: nat)
    ensures !HasAttempt(attempts, event, channel, NextNumber(attempts, event, channel))
    ensures (forall id :: id in attempts ==> attempts[id].Pair() != (event, channel)) ==> NextNumber(attempts, event, channel) == 1
  {
    var numbers := set id | id in attempts && attempts[id].Pair() == (event, channel) :: attempts[id].number;
    forall id | id in attempts && attempts[id].Pair() == (event, channel)
      ensures attempts[id].number < NextNumber(attempts, event, channel)
    {
      assert attempts[id].number in numbers;
    }
  }

  lemma RetryInserts(w: World, event: nat, channel: nat, now: Instant)
    requires CreateRetry(w.queue, event, channel, now).Ok?
    ensures Retried(w, event, channel, now) ==
              Inserted(w, Attempt(event, channel, NextNumber(w.queue.attempts, event, channel), now, Pending))
  {
    NextNumberIsUnused(w.queue.attempts, event, channel);
  }

  /** A pair that was queued before cannot take one more attempt. */
  lemma QueuedPairTakesNoRetry(rules: Rules, w: World, a: Attempt)
    requires Invariant(rules, w) && a.Pair() in w.enqueued && a.state.Pending?
    requires forall id :: id in w.queue.attempts ==> !SameKey(w.queue.attempts[id], a)
    ensures !Invariant(rules, Inserted(w, a))
  {
    var w' := Inserted(w, a);
    var attempts, fresh_ := w'.queue.attempts, NextId(w.queue.attempts.Keys);
    assert Accounted(rules, w, a.Pair());
    if HasLive(w.queue.attempts, a.Pair()) {
      var j :| j in w.queue.attempts && w.queue.attempts[j].Pair() == a.Pair() && w.queue.attempts[j].Live();
      assert RowInvariant(rules, w, j, w.queue.attempts[j]);
      assert !SameKey(w.queue.attempts[j], a);
    }
    assert attempts[fresh_] == a && !RowInvariant(rules, w', fresh_, a);
  }

  lemma UnqueuedPairTakesFirst(rules: Rules, w: World, a: Attempt)
    requires rules.policy.Valid() && Invariant(rules, w) && a.Pair() !in w.enqueued
    requires a.state.Pending? && a.number == 1 && a.event in w.queue.events
    requires forall id :: id in w.queue.attempts ==> !SameKey(w.queue.attempts[id], a)
    ensures Invariant(rules, Inserted(w, a))
  {
    InsertKeeps(rules, w, a);
  }

  lemma UnqueuedPairHasNoRows(rules: Rules, w: World, p: Pair)
    requires Invariant(rules, w) && p !in w.enqueued
    ensures forall id :: id in w.queue.attempts ==> w.queue.attempts[id].Pair() != p
  {
    forall id | id in w.queue.attempts ensures w.queue.attempts[id].Pair() != p {
      assert RowInvariant(rules, w, id, w.queue.attempts[id]);
    }
  }

  /** `create_retry` keeps the guarantees exactly when the pair was never queued at all. */
  lemma RetryKeepsExactlyWhenNeverQueued(rules: Rules, w: World, event: nat, channel: nat, now: Instant)
    requires rules.policy.Valid() && Invariant(rules, w)
    requires CreateRetry(w.queue, event, channel, now).Ok?
    ensures Invariant(rules, Retried(w, event, channel, now)) <==> (event, channel) !in w.enqueued
  {
    var attempts, p, number := w.queue.attempts, (event, channel), NextNumber(w.queue.attempts, event, channel);
    var a := Attempt(event, channel, number, now, Pending);
    NextNumberIsUnused(attempts, event, channel);
    RetryInserts(w, event, channel, now);
    if p !in w.enqueued {
      UnqueuedPairHasNoRows(rules, w, p);
      UnqueuedPairTakesFirst(rules, w, a);
    } else {
      QueuedPairTakesNoRetry(rules, w, a);
    }
  }

  /** While an attempt is live, `create_retry` makes a second one live. */
  lemma RetryDoublesALiveAttempt(w: World, event: nat, channel: nat, now: Instant)
    requires CreateRetry(w.queue, event, channel, now).Ok? && HasLive(w.queue.attempts, (event, channel))
    ensures TwoLive(Retried(w, event, channel, now).queue.attempts, (event, channel))
  {
    var attempts := w.queue.attempts;
    NextNumberIsUnused(attempts, event, channel);
    var j :| j in attempts && attempts[j].Pair() == (event, channel) && attempts[j].Live();
    var after := Retried(w, event, channel, now).queue.attempts;
    var new_ := NextId(attempts.Keys);
    assert after[new_].Pair() == (event, channel) && after[new_].Live() && after[j] == attempts[j];
  }
}
