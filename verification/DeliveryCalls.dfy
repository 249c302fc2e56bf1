/** What each call of the delivery queue means for the columns of its tables. */
module DeliveryCalls {
  import opened Domain
  import opened Wrappers
  import opened Timestamps
  import opened Ordering
  import opened DeliveryQueue
  import opened DeliveryGuarantees

  // ---------- Claiming ----------

  /** The attempt a claim takes: its event exists, an enabled channel has its channel id, that channel
      is assigned to the event's search, no attempt of the pair has succeeded, and it was available,
      or its lease had expired, by the second of the claim. */
  lemma ClaimedAttemptMayBeSent(q: Queue, now: Instant, lease: Duration, token: Token)
    ensures match Claim(q, now, lease, token).1
            case Ok(Some(claim)) =>
              claim.id in q.attempts &&
              var a := q.attempts[claim.id];
              && a.event in q.events
              && (exists c :: c in q.channels && c.id == a.channel && c.enabled)
              && (q.events[a.event].search, a.channel) in q.assignments
              && (forall id :: id in q.attempts && q.attempts[id].event == a.event && q.attempts[id].channel == a.channel ==>
                    !(q.attempts[id].state.Done? && q.attempts[id].state.success))
              && (match a.state
                  case Pending => a.availableAt / SECOND <= now / SECOND
                  case Claimed(_, _, leaseExpiresAt) => leaseExpiresAt / SECOND <= now / SECOND
                  case Done(_, _, _) => false)
            case _ => true
  {
    var eligible := EligibleIds(q, now);
    if eligible != {} {
      var id := Least(eligible, AvailableSeconds(q.attempts));
      assert Eligible(q, id, now);
      forall other | other in q.attempts && q.attempts[other].event == q.attempts[id].event && q.attempts[other].channel == q.attempts[id].channel
        ensures !(q.attempts[other].state.Done? && q.attempts[other].state.success)
      {
        assert q.attempts[other].Pair() == q.attempts[id].Pair();
      }
    }
  }

  /** And a claim takes none only when there is no such attempt. */
  lemma ClaimTakesNoneOnlyWhenNoneMayBeSent(q: Queue, now: Instant, lease: Duration, token: Token, id: nat)
    requires 0 < lease <= 3600 * SECOND && Claim(q, now, lease, token).1 == Ok(None) && id in q.attempts
    ensures var a := q.attempts[id];
            || a.event !in q.events
            || (forall c :: c in q.channels ==> c.id != a.channel || !c.enabled)
            || (q.events[a.event].search, a.channel) !in q.assignments
            || (exists other :: other in q.attempts && q.attempts[other].event == a.event && q.attempts[other].channel == a.channel &&
                                q.attempts[other].state.Done? && q.attempts[other].state.success)
            || (match a.state
                case Pending => now / SECOND < a.availableAt / SECOND
                case Claimed(_, _, leaseExpiresAt) => now / SECOND < leaseExpiresAt / SECOND
                case Done(_, _, _) => true)
  {
    assert id !in EligibleIds(q, now);
    assert !Eligible(q, id, now);
    var a := q.attempts[id];
    if HasSuccess(q.attempts, a.event, a.channel) {
      var other :| other in q.attempts && q.attempts[other].Pair() == (a.event, a.channel) && q.attempts[other].Succeeded();
      assert q.attempts[other].event == a.event && q.attempts[other].channel == a.channel;
    }
  }

  /** A lease outside its bounds raises, and so does a token that another attempt than the one to be
      taken still holds; nothing else does, and both leave the tables alone. */
  lemma ClaimRaisesExactlyWhen(q: Queue, now: Instant, lease: Duration, token: Token)
    ensures var (q', r) := Claim(q, now, lease, token);
            && (r.Raised? ==> q' == q && r.error in {ValueError, IntegrityError})
            && (r == Raised(ValueError) <==> lease <= 0 || lease > 3600 * SECOND)
            && (r == Raised(IntegrityError) <==>
                  0 < lease <= 3600 * SECOND &&
                  exists id, taken {:trigger IsLeast(EligibleIds(q, now), AvailableSeconds(q.attempts), taken), q.attempts[id].state} ::
                    IsLeast(EligibleIds(q, now), AvailableSeconds(q.attempts), taken) && id != taken &&
                    id in q.attempts && q.attempts[id].state.Claimed? && q.attempts[id].state.token == token)
  {
    hide Eligible;
    if 0 < lease <= 3600 * SECOND && EligibleIds(q, now) != {} {
      var eligible, key := EligibleIds(q, now), AvailableSeconds(q.attempts);
      var least := Least(eligible, key);
      forall taken | IsLeast(eligible, key, taken) ensures taken == least {
        LeastIsUnique(eligible, key, taken, least);
      }
      forall id | id in q.attempts ensures HoldsToken(q.attempts, id, token) <==> q.attempts[id].state.Claimed? && q.attempts[id].state.token == token {
      }
    }
  }

  /** What a claim hands out is what it wrote: the token, the clock reading and the lease. */
  lemma ClaimWritesTokenAndLease(q: Queue, now: Instant, lease: Duration, token: Token)
    ensures match Claim(q, now, lease, token)
            case (q', Ok(Some(claim))) =>
              && claim.token == token && claim.at == now && claim.lease == lease
              && claim.id in q'.attempts && q'.attempts[claim.id].state == Claimed(now, token, now + lease)
              && q'.attempts[claim.id].number == q.attempts[claim.id].number
              && q'.attempts[claim.id].availableAt == q.attempts[claim.id].availableAt
            case _ => true
  {
  }

  // ---------- Completing ----------

  /** An accepted completion closes exactly the claimed row, with its outcome and its time. It inserts
      one pending row exactly when it failed before the last attempt and the next number is free:
      the next number, available one delay later. Nothing else changes. */
  lemma CompletionRecordsTheOutcome(q: Queue, policy: RetryPolicy, claim: ClaimedDelivery, success: bool, at: Instant)
    requires Complete(q, policy, claim, success, at).Ok?
    requires forall id :: id in q.attempts ==> q.attempts[id].number >= 1
    ensures var q', row := Complete(q, policy, claim, success, at).value, q.attempts[claim.id];
            && q' == q.(attempts := q'.attempts)
            && claim.id in q'.attempts
            && q'.attempts[claim.id] == row.(state := Done(success, row.state.claimedAt, at))
            && (forall id :: id in q.attempts && id != claim.id ==> id in q'.attempts && q'.attempts[id] == q.attempts[id])
            && (forall id :: id in q'.attempts && id !in q.attempts ==>
                  !success && row.number < policy.maxAttempts &&
                  q'.attempts[id] == Attempt(row.event, row.channel, row.number + 1, at + Delay(policy, row.number), Pending))
            && (!success && row.number < policy.maxAttempts ==>
                  exists id :: id in q'.attempts && q'.attempts[id].event == row.event && q'.attempts[id].channel == row.channel &&
                               q'.attempts[id].number == row.number + 1)
  {
    hide Delay;
    var row := q.attempts[claim.id];
    if !success && row.number < policy.maxAttempts {
      var done := q.attempts[claim.id := row.(state := Done(success, row.state.claimedAt, at))];
      var a := Attempt(row.event, row.channel, row.number + 1, at + Delay(policy, row.number), Pending);
      EnsuredAttemptExists(done, a);
    }
  }

  /** Why a completion raises, in the order in which the reasons are looked for. */
  lemma CompletionRaisesExactlyWhen(q: Queue, policy: RetryPolicy, claim: ClaimedDelivery, success: bool, at: Instant)
    ensures var r := Complete(q, policy, claim, success, at);
            if policy.maxAttempts < 1 || policy.maxAttempts > 10 || policy.baseBackoff <= 0 || policy.baseBackoff > policy.maxBackoff
            then r == Raised(ValueError)
            else if claim.id !in q.attempts || !q.attempts[claim.id].state.Claimed? || q.attempts[claim.id].state.token != claim.token
            then r == Raised(StaleClaim)
            else if q.attempts[claim.id].state.claimedAt != at && !StoredBefore(q.attempts[claim.id].state.claimedAt, at)
            then r == Raised(IntegrityError)
            else r.Ok?
  {
    hide Delay;
  }

  lemma EnsuredAttemptExists(attempts: map<nat, Attempt>, a: Attempt)
    requires a.state.Pending?
    ensures var after := EnsureAttempt(attempts, a.event, a.channel, a.number, a.availableAt);
            exists id :: id in after && after[id].event == a.event && after[id].channel == a.channel && after[id].number == a.number
  {
    var after := EnsureAttempt(attempts, a.event, a.channel, a.number, a.availableAt);
    if HasAttempt(attempts, a.event, a.channel, a.number) {
      var id :| id in attempts && attempts[id].event == a.event && attempts[id].channel == a.channel && attempts[id].number == a.number;
    } else {
      assert after[NextId(attempts.Keys)] == a;
    }
  }

  /** An attempt is inserted, under a new id, exactly when no row has its event, channel and number. */
  lemma AttemptIsInsertedOnce(attempts: map<nat, Attempt>, event: nat, channel: nat, number: nat, at: Instant)
    ensures var after := EnsureAttempt(attempts, event, channel, number, at);
            if exists id :: id in attempts && attempts[id].event == event && attempts[id].channel == channel && attempts[id].number == number
            then after == attempts
            else exists id: nat :: id !in attempts && after == attempts[id := Attempt(event, channel, number, at, Pending)]
  {
    if !HasAttempt(attempts, event, channel, number) {
      var id := NextId(attempts.Keys);
      assert id !in attempts;
    } else {
      var id :| id in attempts && attempts[id].event == event && attempts[id].channel == channel && attempts[id].number == number;
    }
  }

  /** `create_retry` takes the number after the greatest one of the pair, or 1. */
  lemma RetryTakesTheNextNumber(attempts: map<nat, Attempt>, event: nat, channel: nat)
    ensures var n := NextNumber(attempts, event, channel);
            && n >= 1
            && (forall id :: id in attempts && attempts[id].event == event && attempts[id].channel == channel ==> attempts[id].number < n)
            && (n == 1 || exists id :: id in attempts && attempts[id].event == event && attempts[id].channel == channel && attempts[id].number == n - 1)
  {
    NextNumberIsUnused(attempts, event, channel);
    var numbers := set id | id in attempts && attempts[id].Pair() == (event, channel) :: attempts[id].number;
    forall id | id in attempts && attempts[id].event == event && attempts[id].channel == channel
      ensures attempts[id].number < NextNumber(attempts, event, channel)
    {
      assert attempts[id].number in numbers;
    }
    if numbers != {} {
      var id :| id in attempts && attempts[id].Pair() == (event, channel) && attempts[id].number == NextId(numbers) - 1;
      assert attempts[id].event == event && attempts[id].channel == channel;
    }
  }

  /** A retry exists only for an event and a channel that exist. */
  lemma RetryNeedsEventAndChannel(q: Queue, event: nat, channel: nat, now: Instant)
    ensures CreateRetry(q, event, channel, now).Ok? <==> event in q.events && exists c :: c in q.channels && c.id == channel
  {
  }

  // ---------- Who is told ----------

  /** A new event of a search with a preferences row gets a first attempt on a channel exactly when the
      flag named like its kind is set and the channel is enabled and assigned to the search. */
  lemma NewEventFollowsThePreferences(q: Queue, event: Event, now: Instant, channel: nat, n: bool, d: bool, i: bool, r: bool)
    requires (forall id :: id in q.events ==> q.events[id].key != event.key) && event.search in q.searches
    requires forall id :: id in q.attempts ==> q.attempts[id].event in q.events
    requires event.search in q.preferences && q.preferences[event.search] == Preferences(n, d, i, r)
    ensures var created, result := NextId(q.events.Keys), CreateEvent(q, event, now);
            && result.Ok? && created !in q.events && result.value.events == q.events[created := event]
            && ((exists id :: id in result.value.attempts && result.value.attempts[id] == Attempt(created, channel, 1, now, Pending)) <==>
                  && (match event.kind case NewListing => n case PriceDrop => d case PriceIncrease => i case Reappearance => r)
                  && (exists c :: c in q.channels && c.id == channel && c.enabled && (event.search, channel) in q.assignments))
  {
    NewEventIsQueued(q, event, now, channel);
  }

  /** A search without a preferences row is told of new listings and price drops, and of nothing else. */
  lemma NewEventFollowsTheDefaults(q: Queue, event: Event, now: Instant, channel: nat)
    requires (forall id :: id in q.events ==> q.events[id].key != event.key) && event.search in q.searches
    requires forall id :: id in q.attempts ==> q.attempts[id].event in q.events
    requires event.search !in q.preferences
    ensures var created, result := NextId(q.events.Keys), CreateEvent(q, event, now);
            && result.Ok? && created !in q.events && result.value.events == q.events[created := event]
            && ((exists id :: id in result.value.attempts && result.value.attempts[id] == Attempt(created, channel, 1, now, Pending)) <==>
                  && (event.kind == NewListing || event.kind == PriceDrop)
                  && (exists c :: c in q.channels && c.id == channel && c.enabled && (event.search, channel) in q.assignments))
  {
    NewEventIsQueued(q, event, now, channel);
  }

  lemma NewEventIsQueued(q: Queue, event: Event, now: Instant, channel: nat)
    requires !HasKey(q.events, event.key) && event.search in q.searches
    requires forall id :: id in q.attempts ==> q.attempts[id].event in q.events
    ensures var created, result := NextId(q.events.Keys), CreateEvent(q, event, now);
            && result.Ok? && created !in q.events && result.value.events == q.events[created := event]
            && ((exists id :: id in result.value.attempts && result.value.attempts[id] == Attempt(created, channel, 1, now, Pending)) <==>
                  && PreferencesFor(q, event.search).Enables(event.kind)
                  && (exists c :: c in q.channels && c.id == channel && c.enabled && (event.search, channel) in q.assignments))
  {
    CreatedEventReachesExactlyItsChannels(q, event, now, channel, 1);
    var created := NextId(q.events.Keys);
    var after := CreateEvent(q, event, now).value.attempts;
    FirstAttemptsArePending(q.attempts, created, event.search, q.assignments, q.channels, now);
    if HasAttempt(after, created, channel, 1) {
      var id :| id in after && after[id].event == created && after[id].channel == channel && after[id].number == 1;
      assert after[id] == Attempt(created, channel, 1, now, Pending);
    }
    if c :| c in q.channels && c.id == channel && Receives(q.assignments, event.search, c) {
      assert c.enabled && (event.search, channel) in q.assignments;
    }
    if c :| c in q.channels && c.id == channel && c.enabled && (event.search, channel) in q.assignments {
      assert Receives(q.assignments, event.search, c);
    }
  }

  lemma {:induction false} FirstAttemptsArePending(attempts: map<nat, Attempt>, event: nat, search: nat, assignments: set<(nat, nat)>,
                                                   channels: seq<Channel>, now: Instant)
    ensures var after := EnsureForChannels(attempts, event, search, assignments, channels, now);
            && (forall id :: id in attempts ==> id in after && after[id] == attempts[id])
            && (forall id :: id in after && id !in attempts ==> after[id] == Attempt(event, after[id].channel, 1, now, Pending))
    decreases |channels|
  {
    if channels != [] {
      var c := channels[0];
      var next := if Receives(assignments, search, c) then EnsureAttempt(attempts, event, c.id, 1, now) else attempts;
      FirstAttemptsArePending(next, event, search, assignments, channels[1..], now);
    }
  }

  /** A key that exists creates no event and queues nothing; a search that does not exist raises. */
  lemma KnownKeyCreatesNothing(q: Queue, event: Event, now: Instant)
    ensures (exists id :: id in q.events && q.events[id].key == event.key) ==> CreateEvent(q, event, now) == Ok(q)
    ensures (forall id :: id in q.events ==> q.events[id].key != event.key) && event.search !in q.searches ==>
              CreateEvent(q, event, now) == Raised(IntegrityError)
  {
  }

  /** Queueing an event raises exactly when the event or its search is gone. */
  lemma EnqueueRaisesExactlyWhen(q: Queue, event: nat, now: Instant)
    ensures EnsureEventDeliveries(q, event, now).Raised? <==> event !in q.events || q.events[event].search !in q.searches
    ensures EnsureEventDeliveries(q, event, now).Raised? ==> EnsureEventDeliveries(q, event, now) == Raised(LookupError)
    ensures EnsureEventDeliveries(q, event, now).Ok? ==>
              EnsureEventDeliveries(q, event, now).value == q.(attempts := EnsureEventDeliveries(q, event, now).value.attempts)
  {
  }

  // ---------- Retention ----------

  /** A row survives pruning exactly when it is pending or claimed, or it was completed no earlier than
      `days` days before, to the second, and fewer than `maxTerminal` other such rows come after it
      by completion second and id. */
  lemma PruneSpelledOut(attempts: map<nat, Attempt>, retention: Retention, now: Instant, id: nat)
    requires id in attempts
    ensures id in Prune(attempts, retention, now) <==>
              || !attempts[id].state.Done?
              || (&& attempts[id].state.completedAt / SECOND >= (now - retention.days * 86_400 * SECOND) / SECOND
                  && |Later(attempts, now - retention.days * 86_400 * SECOND, id)| < retention.maxTerminal)
  {
    var cutoff := now - retention.days * 86_400 * SECOND;
    assert Cutoff(retention, now) == cutoff;
    hide Prune;
    PruneKeepsTheNewest(attempts, retention, now);
    if attempts[id].state.Done? {
      var aged := AgedIds(attempts, cutoff);
      var young := TerminalIds(attempts) - aged;
      var survivors := TerminalIds(Prune(attempts, retention, now));
      assert id in aged <==> attempts[id].state.completedAt / SECOND < cutoff / SECOND;
      if id in young {
        assert id in survivors <==> id in Prune(attempts, retention, now);
        RankDecides(attempts, retention, now, id, young, survivors);
      }
    }
  }

  /** The terminal rows not past the cutoff that come after this one. */
  function Later(attempts: map<nat, Attempt>, cutoff: Instant, id: nat): set<nat>
    requires id in attempts && attempts[id].state.Done?
  {
    set other | other in attempts && attempts[other].state.Done? &&
                attempts[other].state.completedAt / SECOND >= cutoff / SECOND &&
                (|| attempts[other].state.completedAt / SECOND > attempts[id].state.completedAt / SECOND
                 || (attempts[other].state.completedAt / SECOND == attempts[id].state.completedAt / SECOND && other > id))
  }

  lemma RankDecides(attempts: map<nat, Attempt>, retention: Retention, now: Instant, id: nat, young: set<nat>, survivors: set<nat>)
    requires id in young && survivors <= young <= TerminalIds(attempts)
    requires young == TerminalIds(attempts) - AgedIds(attempts, Cutoff(retention, now))
    requires |survivors| == (if |young| < retention.maxTerminal then |young| else retention.maxTerminal)
    requires forall s, d :: s in survivors && d in young - survivors ==> Before(CompletionSeconds(attempts), d, s)
    ensures id in survivors <==> |Later(attempts, Cutoff(retention, now), id)| < retention.maxTerminal
  {
    var later := Later(attempts, Cutoff(retention, now), id);
    assert later == set other | other in young && Before(CompletionSeconds(attempts), id, other);
    if id in survivors {
      forall other | other in later ensures other in survivors - {id} {
        assert other in young - survivors ==> Before(CompletionSeconds(attempts), other, id);
      }
      SubsetHasFewer(later, survivors - {id});
    } else {
      assert survivors <= later;
      SubsetHasFewer(survivors, later);
      SubsetHasFewer(survivors, young);
    }
  }
}
