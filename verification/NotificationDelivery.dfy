/** The repository, the dispatcher and the retention service as objects over the tables. */
module NotificationDelivery {
  import opened Wrappers
  import opened Timestamps
  import opened Ordering
  import opened DeliveryQueue
  import D = DeliveryRuns

  /** The row with this unique key. */
  predicate IsAttempt(attempts: map<nat, Attempt>, id: nat, event: nat, channel: nat, number: nat) {
    id in attempts && attempts[id].event == event && attempts[id].channel == channel && attempts[id].number == number
  }

  /** The channels among the first `n` that receive the events of the search, in row order. */
  function Recipients(assignments: set<(nat, nat)>, search: nat, channels: seq<Channel>, n: nat): seq<Channel>
    requires n <= |channels|
  {
    if n == 0 then []
    else
      Recipients(assignments, search, channels, n - 1)
      + if Receives(assignments, search, channels[n - 1]) then [channels[n - 1]] else []
  }

  /** `ids` are the first attempts of the event for these channels. */
  predicate AreFirstAttempts(attempts: map<nat, Attempt>, ids: seq<nat>, event: nat, channels: seq<Channel>) {
    |ids| == |channels| && forall k :: 0 <= k < |ids| ==> IsAttempt(attempts, ids[k], event, channels[k].id, 1)
  }

  class NotificationRepository {
    var searches: set<nat>
    var channels: seq<Channel>
    var assignments: set<(nat, nat)>
    var preferences: map<nat, Preferences>
    var events: map<nat, Event>
    var attempts: map<nat, Attempt>

    function Tables(): Queue
      reads this
    {
      Queue(searches, channels, assignments, preferences, events, attempts)
    }

    constructor (q: Queue)
      ensures Tables() == q
    {
      searches, channels, assignments := q.searches, q.channels, q.assignments;
      preferences, events, attempts := q.preferences, q.events, q.attempts;
    }

    /** Insert a pending attempt unless its key exists; the row is returned either way. */
    method EnsureDeliveryAttempt(event: nat, channel: nat, number: nat, availableAt: Instant) returns (id: nat, created: bool)
      modifies this`attempts
      ensures attempts == EnsureAttempt(old(attempts), event, channel, number, availableAt)
      ensures created == !HasAttempt(old(attempts), event, channel, number)
      ensures IsAttempt(attempts, id, event, channel, number)
      ensures forall other :: other in old(attempts) ==> other in attempts && attempts[other] == old(attempts)[other]
    {
      if HasAttempt(attempts, event, channel, number) {
        id :| id in attempts && IsAttempt(attempts, id, event, channel, number);
        return id, false;
      }
      id := NextId(attempts.Keys);
      attempts := attempts[id := Attempt(event, channel, number, availableAt, Pending)];
      return id, true;
    }

    method EnsureEventDeliveries(eventId: nat, availableAt: Instant) returns (r: Result<seq<nat>, Error>)
      modifies this`attempts
      ensures match DeliveryQueue.EnsureEventDeliveries(old(Tables()), eventId, availableAt)
              case Ok(q) =>
                var search := q.events[eventId].search;
                var wanted := PreferencesFor(q, search).Enables(q.events[eventId].kind);
                && Tables() == q && r.Ok?
                && AreFirstAttempts(attempts, r.value, eventId, Recipients(assignments, search, channels, if wanted then |channels| else 0))
              case Raised(error) => r == Raised(error) && Tables() == old(Tables())
    {
      if eventId !in events { return Raised(LookupError); }
      var search := events[eventId].search;
      if search !in searches { return Raised(LookupError); }
      if !PreferencesFor(Tables(), search).Enables(events[eventId].kind) { return Ok([]); }
      ghost var target := EnsureForChannels(attempts, eventId, search, assignments, channels, availableAt);
      var ids: seq<nat> := [];
      for i := 0 to |channels|
        invariant EnsureForChannels(attempts, eventId, search, assignments, channels[i..], availableAt) == target
        invariant AreFirstAttempts(attempts, ids, eventId, Recipients(assignments, search, channels, i))
      {
        assert channels[i..][0] == channels[i] && channels[i..][1..] == channels[i + 1..];
        if Receives(assignments, search, channels[i]) {
          var id, _ := EnsureDeliveryAttempt(eventId, channels[i].id, 1, availableAt);
          ids := ids + [id];
        }
      }
      return Ok(ids);
    }

    /** Create an event and its first attempts; `created` tells a new event from a known key. */
    method CreateEvent(event: Event, now: Instant) returns (r: Result<bool, Error>)
      modifies this`events, this`attempts
      ensures match DeliveryQueue.CreateEvent(old(Tables()), event, now)
              case Ok(q) => r == Ok(!HasKey(old(events), event.key)) && Tables() == q
              case Raised(error) => r == Raised(error) && Tables() == old(Tables())
    {
      if HasKey(events, event.key) { return Ok(false); }
      if event.search !in searches { return Raised(IntegrityError); }
      var id := NextId(events.Keys);
      events := events[id := event];
      var queued := EnsureEventDeliveries(id, now);
      return Ok(true);
    }

    method ClaimNextDelivery(now: Instant, lease: Duration, token: Token) returns (r: Result<Option<ClaimedDelivery>, Error>)
      modifies this`attempts
      ensures (Tables(), r) == Claim(old(Tables()), now, lease, token)
    {
      if !(0 < lease <= MAX_LEASE) { return Raised(ValueError); }
      var eligible := EligibleIds(Tables(), now);
      if eligible == {} { return Ok(None); }
      var id := Least(eligible, AvailableSeconds(attempts));
      if exists other :: other in attempts && other != id && HoldsToken(attempts, other, token) {
        return Raised(IntegrityError);
      }
      attempts := attempts[id := attempts[id].(state := Claimed(now, token, now + lease))];
      return Ok(Some(ClaimedDelivery(id, token, now, lease)));
    }

    method CompleteDelivery(policy: RetryPolicy, claim: ClaimedDelivery, success: bool, at: Instant) returns (r: Result<(), Error>)
      modifies this`attempts
      ensures match Complete(old(Tables()), policy, claim, success, at)
              case Ok(q) => r == Ok(()) && Tables() == q
              case Raised(error) => r == Raised(error) && Tables() == old(Tables())
    {
      if !policy.Valid() { return Raised(ValueError); }
      if !Owns(attempts, claim) { return Raised(StaleClaim); }
      var row := attempts[claim.id];
      if !StoredAtMost(row.state.claimedAt, at) { return Raised(IntegrityError); }
      attempts := attempts[claim.id := row.(state := Done(success, row.state.claimedAt, at))];
      if !success && 1 <= row.number < policy.maxAttempts {
        var delay := Delay(policy, row.number);
        var id, created := EnsureDeliveryAttempt(row.event, row.channel, row.number + 1, at + delay);
      }
      return Ok(());
    }
  }

  class OperationalRetentionService {
    const repository: NotificationRepository
    const policy: Retention

    constructor (repository: NotificationRepository, policy: Retention)
      ensures this.repository == repository && this.policy == policy
    {
      this.repository, this.policy := repository, policy;
    }

    /** The two deletions of delivery attempts; returns how many rows they remove. */
    method Prune(now: Instant) returns (deleted: nat)
      modifies repository`attempts
      ensures repository.attempts == DeliveryQueue.Prune(old(repository.attempts), policy, now)
      ensures deleted == |old(repository.attempts)| - |repository.attempts|
    {
      var before := |repository.attempts|;
      var aged := AgedIds(repository.attempts, Cutoff(policy, now));
      MinusCardinality(repository.attempts, aged);
      repository.attempts := repository.attempts - aged;
      var beyond := BeyondLimit(TerminalIds(repository.attempts), CompletionSeconds(repository.attempts), policy.maxTerminal);
      MinusCardinality(repository.attempts, beyond);
      repository.attempts := repository.attempts - beyond;
      deleted := |aged| + |beyond|;
    }
  }

  lemma MinusCardinality(attempts: map<nat, Attempt>, ids: set<nat>)
    requires ids <= attempts.Keys
    ensures |attempts - ids| == |attempts| - |ids|
  {
    assert (attempts - ids).Keys == attempts.Keys - ids;
    assert |attempts.Keys - ids| == |attempts.Keys| - |ids|;
  }

  // ---------- The dispatcher ----------

  datatype DeliveryPolicy = DeliveryPolicy(retry: RetryPolicy, lease: Duration)

  /** What the outside world contributes to one dispatch: two clock readings, a fresh token and
      whether the provider accepted the message. */
  datatype Circumstances = Circumstances(claimAt: Instant, token: Token, delivered: bool, completeAt: Instant)

  datatype Outcome = Outcome(claim: ClaimedDelivery, delivered: bool)

  function Dispatch(q: Queue, policy: DeliveryPolicy, c: Circumstances): (Queue, Result<Option<Outcome>, Error>) {
    match Claim(q, c.claimAt, policy.lease, c.token)
    case (q1, Raised(error)) => (q1, Raised(error))
    case (q1, Ok(None)) => (q1, Ok(None))
    case (q1, Ok(Some(claim))) =>
      match Complete(q1, policy.retry, claim, c.delivered, c.completeAt)
      case Raised(error) => (q1, Raised(error))
      case Ok(q2) => (q2, Ok(Some(Outcome(claim, c.delivered))))
  }

  /** A dispatch claims at its first clock reading under the lease of its policy, and closes the claimed
      row with what the provider answered, at its second one; what it returns is this. */
  lemma DispatchSpelledOut(q: Queue, policy: DeliveryPolicy, c: Circumstances)
    ensures var (q', r) := Dispatch(q, policy, c);
            r.Ok? && r.value.Some? ==>
              var o := r.value.value;
              && o.delivered == c.delivered
              && o.claim == ClaimedDelivery(o.claim.id, c.token, c.claimAt, policy.lease)
              && Claim(q, c.claimAt, policy.lease, c.token).1 == Ok(Some(o.claim))
              && o.claim.id in q'.attempts && q'.attempts[o.claim.id].state == Done(c.delivered, c.claimAt, c.completeAt)
  {
    hide Delay, EligibleIds;
  }

  /** A dispatch that finds nothing changes nothing; one that raises leaves at most its claim behind. */
  lemma DispatchLeavesAtMostAClaim(q: Queue, policy: DeliveryPolicy, c: Circumstances)
    ensures var (q', r) := Dispatch(q, policy, c);
            && (r == Ok(None) ==> q' == q)
            && (r.Raised? ==> q' == Claim(q, c.claimAt, policy.lease, c.token).0)
  {
    hide Complete;
  }

  /** `n` dispatches in a row that all return an outcome, with the tables they leave behind. */
  function Drain(q: Queue, policy: DeliveryPolicy, world: nat -> Circumstances, n: nat): Option<(Queue, seq<Outcome>)> {
    if n == 0 then Some((q, []))
    else
      match Drain(q, policy, world, n - 1)
      case None => None
      case Some((q1, outcomes)) =>
        match Dispatch(q1, policy, world(n - 1))
        case (q2, Ok(Some(outcome))) => Some((q2, outcomes + [outcome]))
        case (_, _) => None
  }

  /** `n` dispatches succeed and the next one raises, leaving the tables `after`. */
  predicate Stops(q: Queue, policy: DeliveryPolicy, world: nat -> Circumstances, n: nat, after: Queue, error: Error) {
    var drained := Drain(q, policy, world, n);
    drained.Some? && Dispatch(drained.value.0, policy, world(n)) == (after, Raised(error))
  }

  // ---------- Draining ends ----------

  /** How many completions a row can still bring about, itself included. */
  function Share(a: Attempt, maxAttempts: int): nat {
    if a.Live() && a.number <= maxAttempts then maxAttempts + 1 - a.number else 0
  }

  function WeightBelow(attempts: map<nat, Attempt>, maxAttempts: int, k: nat): nat {
    if k == 0 then 0
    else WeightBelow(attempts, maxAttempts, k - 1) + if k - 1 in attempts then Share(attempts[k - 1], maxAttempts) else 0
  }

  /** The sum over the live attempts of `maxAttempts + 1 - number`. */
  function Weight(attempts: map<nat, Attempt>, maxAttempts: int): nat {
    WeightBelow(attempts, maxAttempts, NextId(attempts.Keys))
  }

  lemma {:induction false} WeightBelowUpdate(attempts: map<nat, Attempt>, maxAttempts: int, id: nat, a: Attempt, k: nat)
    ensures WeightBelow(attempts[id := a], maxAttempts, k) ==
              WeightBelow(attempts, maxAttempts, k)
              + (if id < k then Share(a, maxAttempts) - (if id in attempts then Share(attempts[id], maxAttempts) else 0) else 0)
  {
    if k > 0 { WeightBelowUpdate(attempts, maxAttempts, id, a, k - 1); }
  }

  lemma WeightOfUpdate(attempts: map<nat, Attempt>, maxAttempts: int, id: nat, a: Attempt)
    requires id in attempts || id == NextId(attempts.Keys)
    ensures Weight(attempts[id := a], maxAttempts) ==
              Weight(attempts, maxAttempts) + Share(a, maxAttempts) - (if id in attempts then Share(attempts[id], maxAttempts) else 0)
  {
    var after := attempts[id := a];
    var n := NextId(attempts.Keys);
    if id in attempts {
      assert after.Keys == attempts.Keys;
      WeightBelowUpdate(attempts, maxAttempts, id, a, n);
    } else {
      assert after.Keys == attempts.Keys + {id};
      assert NextId(after.Keys) == n + 1;
      WeightBelowUpdate(attempts, maxAttempts, id, a, n + 1);
      assert WeightBelow(attempts, maxAttempts, n + 1) == WeightBelow(attempts, maxAttempts, n);
    }
  }

  predicate InRange(a: Attempt, maxAttempts: int) {
    a.Live() ==> 1 <= a.number <= maxAttempts
  }

  predicate NumbersInRange(attempts: map<nat, Attempt>, maxAttempts: int) {
    forall id {:trigger InRange(attempts[id], maxAttempts)} :: id in attempts ==> InRange(attempts[id], maxAttempts)
  }

  lemma UpdateStaysInRange(attempts: map<nat, Attempt>, maxAttempts: int, id: nat, a: Attempt)
    requires NumbersInRange(attempts, maxAttempts) && InRange(a, maxAttempts)
    ensures NumbersInRange(attempts[id := a], maxAttempts)
  {
    var after := attempts[id := a];
    forall k | k in after ensures InRange(after[k], maxAttempts) {
      if k != id { assert InRange(attempts[k], maxAttempts); }
    }
  }

  lemma ClaimKeepsWeight(q: Queue, now: Instant, lease: Duration, token: Token, maxAttempts: int)
    requires NumbersInRange(q.attempts, maxAttempts)
    ensures var q1 := Claim(q, now, lease, token).0;
            NumbersInRange(q1.attempts, maxAttempts) && Weight(q1.attempts, maxAttempts) == Weight(q.attempts, maxAttempts)
  {
    var (q1, r) := Claim(q, now, lease, token);
    if r.Ok? && r.value.Some? {
      var id := r.value.value.id;
      assert InRange(q.attempts[id], maxAttempts);
      WeightOfUpdate(q.attempts, maxAttempts, id, q1.attempts[id]);
      UpdateStaysInRange(q.attempts, maxAttempts, id, q1.attempts[id]);
    }
  }

  lemma ConcludingLowersWeight(attempts: map<nat, Attempt>, maxAttempts: int, id: nat, concluded: Attempt)
    requires id in attempts && attempts[id].Live() && !concluded.Live() && NumbersInRange(attempts, maxAttempts)
    ensures NumbersInRange(attempts[id := concluded], maxAttempts) && 1 <= attempts[id].number <= maxAttempts
    ensures Weight(attempts[id := concluded], maxAttempts) == Weight(attempts, maxAttempts) - (maxAttempts + 1 - attempts[id].number)
  {
    assert InRange(attempts[id], maxAttempts);
    WeightOfUpdate(attempts, maxAttempts, id, concluded);
    UpdateStaysInRange(attempts, maxAttempts, id, concluded);
  }

  lemma EnsuringAddsAtMost(attempts: map<nat, Attempt>, maxAttempts: int, event: nat, channel: nat, number: nat, availableAt: Instant)
    requires 1 <= number <= maxAttempts && NumbersInRange(attempts, maxAttempts)
    ensures var after := EnsureAttempt(attempts, event, channel, number, availableAt);
            && NumbersInRange(after, maxAttempts)
            && Weight(after, maxAttempts) <= Weight(attempts, maxAttempts) + (maxAttempts + 1 - number)
  {
    var a := Attempt(event, channel, number, availableAt, Pending);
    WeightOfUpdate(attempts, maxAttempts, NextId(attempts.Keys), a);
    UpdateStaysInRange(attempts, maxAttempts, NextId(attempts.Keys), a);
  }

  lemma CompleteLowersWeight(q: Queue, policy: RetryPolicy, claim: ClaimedDelivery, success: bool, at: Instant)
    requires NumbersInRange(q.attempts, policy.maxAttempts)
    ensures match Complete(q, policy, claim, success, at)
            case Ok(q') =>
              NumbersInRange(q'.attempts, policy.maxAttempts) &&
              Weight(q'.attempts, policy.maxAttempts) < Weight(q.attempts, policy.maxAttempts)
            case Raised(_) => true
  {
    hide Weight, NumbersInRange;
    if Complete(q, policy, claim, success, at).Ok? {
      var row := q.attempts[claim.id];
      var concluded := row.(state := Done(success, row.state.claimedAt, at));
      ConcludingLowersWeight(q.attempts, policy.maxAttempts, claim.id, concluded);
      if !success && row.number < policy.maxAttempts {
        EnsuringAddsAtMost(q.attempts[claim.id := concluded], policy.maxAttempts, row.event, row.channel, row.number + 1,
                           at + Delay(policy, row.number));
      }
    }
  }

  /** Every dispatch that returns an outcome lowers the weight, at any clock readings. */
  lemma DispatchLowersWeight(q: Queue, policy: DeliveryPolicy, c: Circumstances)
    requires NumbersInRange(q.attempts, policy.retry.maxAttempts)
    ensures var (q', r) := Dispatch(q, policy, c);
            var limit := policy.retry.maxAttempts;
            && NumbersInRange(q'.attempts, limit)
            && (r.Ok? && r.value.Some? ==> Weight(q'.attempts, limit) < Weight(q.attempts, limit))
            && Weight(q'.attempts, limit) <= Weight(q.attempts, limit)
  {
    ClaimKeepsWeight(q, c.claimAt, policy.lease, c.token, policy.retry.maxAttempts);
    var (q1, r) := Claim(q, c.claimAt, policy.lease, c.token);
    if r.Ok? && r.value.Some? {
      CompleteLowersWeight(q1, policy.retry, r.value.value, c.delivered, c.completeAt);
    }
  }

  /** Draining without a limit ends: a run of dispatches that all return an outcome is no longer
      than the weight of the tables it starts from. */
  lemma {:induction false} DrainingEnds(q: Queue, policy: DeliveryPolicy, world: nat -> Circumstances, n: nat)
    requires NumbersInRange(q.attempts, policy.retry.maxAttempts)
    requires Drain(q, policy, world, n).Some?
    ensures var (q', outcomes) := Drain(q, policy, world, n).value;
            && |outcomes| == n
            && NumbersInRange(q'.attempts, policy.retry.maxAttempts)
            && n + Weight(q'.attempts, policy.retry.maxAttempts) <= Weight(q.attempts, policy.retry.maxAttempts)
  {
    if n > 0 {
      DrainingEnds(q, policy, world, n - 1);
      DispatchLowersWeight(Drain(q, policy, world, n - 1).value.0, policy, world(n - 1));
    }
  }

  /** Every state a run of the queue reaches has its live numbers in range, so draining ends there. */
  lemma ReachableNumbersAreInRange(rules: D.Rules, start: D.World, actions: seq<D.Action>)
    requires rules.policy.Valid() && D.Initial(start) && D.AllowedRun(rules, start, actions)
    ensures NumbersInRange(D.Run(rules, start, actions).queue.attempts, rules.policy.maxAttempts)
  {
    D.RunKeeps(rules, start, actions);
    var w := D.Run(rules, start, actions);
    forall id | id in w.queue.attempts ensures InRange(w.queue.attempts[id], rules.policy.maxAttempts) {
      assert D.RowInvariant(rules, w, id, w.queue.attempts[id]);
    }
  }

  class DurableNotificationDispatcher {
    const repository: NotificationRepository
    const policy: DeliveryPolicy

    constructor (repository: NotificationRepository, policy: DeliveryPolicy)
      ensures this.repository == repository && this.policy == policy
    {
      this.repository, this.policy := repository, policy;
    }

    method DispatchNext(c: Circumstances) returns (r: Result<Option<Outcome>, Error>)
      modifies repository`attempts
      ensures (repository.Tables(), r) == Dispatch(old(repository.Tables()), policy, c)
    {
      var claimed := repository.ClaimNextDelivery(c.claimAt, policy.lease, c.token);
      match claimed {
        case Raised(error) => return Raised(error);
        case Ok(None) => return Ok(None);
        case Ok(Some(claim)) =>
          var completed := repository.CompleteDelivery(policy.retry, claim, c.delivered, c.completeAt);
          match completed {
            case Raised(error) => return Raised(error);
            case Ok(_) => return Ok(Some(Outcome(claim, c.delivered)));
          }
      }
    }

    /** Dispatch until nothing is due, the limit is reached, or a dispatch raises. */
    method DispatchAvailable(limit: int, world: nat -> Circumstances) returns (r: Result<seq<Outcome>, Error>)
      modifies repository`attempts
      ensures limit < 1 ==> r == Raised(ValueError) && repository.Tables() == old(repository.Tables())
      ensures limit >= 1 && r.Raised? ==>
                exists n :: 0 <= n < limit && Stops(old(repository.Tables()), policy, world, n, repository.Tables(), r.error)
      ensures r.Ok? ==>
                var n := |r.value|;
                && n <= limit
                && (NumbersInRange(old(repository.attempts), policy.retry.maxAttempts) ==>
                      n + Weight(repository.attempts, policy.retry.maxAttempts)
                      <= Weight(old(repository.attempts), policy.retry.maxAttempts))
                && Drain(old(repository.Tables()), policy, world, n) == Some((repository.Tables(), r.value))
                && (n < limit ==> Dispatch(repository.Tables(), policy, world(n)) == (repository.Tables(), Ok(None)))
    {
      hide Dispatch;
      if limit < 1 { return Raised(ValueError); }
      var outcomes: seq<Outcome> := [];
      while |outcomes| < limit
        invariant |outcomes| <= limit
        invariant Drain(old(repository.Tables()), policy, world, |outcomes|) == Some((repository.Tables(), outcomes))
      {
        var n := |outcomes|;
        ghost var before := repository.Tables();
        var outcome := DispatchNext(world(n));
        match outcome {
          case Raised(error) =>
            assert Stops(old(repository.Tables()), policy, world, n, repository.Tables(), error);
            return Raised(error);
          case Ok(None) =>
            NothingToDispatch(before, policy, world(n));
            if NumbersInRange(old(repository.attempts), policy.retry.maxAttempts) {
              DrainingEnds(old(repository.Tables()), policy, world, n);
            }
            return Ok(outcomes);
          case Ok(Some(o)) => outcomes := outcomes + [o];
        }
      }
      if NumbersInRange(old(repository.attempts), policy.retry.maxAttempts) {
        DrainingEnds(old(repository.Tables()), policy, world, |outcomes|);
      }
      return Ok(outcomes);
    }
  }

  lemma NothingToDispatch(q: Queue, policy: DeliveryPolicy, c: Circumstances)
    ensures Dispatch(q, policy, c).1 == Ok(None) ==> Dispatch(q, policy, c).0 == q
  {
  }
}
