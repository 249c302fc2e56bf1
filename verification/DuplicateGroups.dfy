/** The stored groups of candidates: what a batch and a review do to them. */
module DuplicateGroups {
  import opened Wrappers
  import opened Ordering
  import opened Timestamps
  import opened DuplicateMatching
  import opened DuplicateScoring
  import opened DuplicateNarrowing

  datatype ReviewState = Pending | Accepted | Rejected

  /** A scored pair and what a person decided about it. Groups are found by their pair of listing ids;
      `members` says when each listing was added. */
  datatype Group = Group(
    score: real, reasons: seq<Reason>, reviewState: ReviewState,
    createdAt: Instant, updatedAt: Instant, reviewedAt: Option<Instant>, members: map<nat, Instant>)
  {
    function Confidence(): Confidence { if score >= HIGH then High else Review }
  }

  type Groups = map<(nat, nat), Group>

  datatype Error = LookupError | ValueError | AlreadyReviewedError | IntegrityError

  // ---------- What a batch does to the groups ----------

  function Scored(spanish: Normalizer, pair: Pair): Score { ScoreOf(spanish, pair.first, pair.second) }

  predicate IsRejected(groups: Groups, key: (nat, nat)) { key in groups && groups[key].reviewState.Rejected? }

  predicate Updates(groups: Groups, spanish: Normalizer, pairs: map<(nat, nat), Pair>, key: (nat, nat)) {
    key in pairs && !IsRejected(groups, key) && Scored(spanish, pairs[key]).eligible
  }

  /** The schema's `updated_at >= created_at`, a comparison of texts. */
  predicate Accepts(groups: Groups, key: (nat, nat), at: Instant) {
    key in groups ==> StoredAtMost(groups[key].createdAt, at)
  }

  /** A new group, or the old one with a new score; its decision and its members stay. */
  function Rescored(groups: Groups, key: (nat, nat), score: real, reasons: seq<Reason>, at: Instant): Group {
    if key in groups then groups[key].(score := score, reasons := reasons, updatedAt := at)
    else Group(score, reasons, Pending, at, at, None, map[key.0 := at, key.1 := at])
  }

  function Upserted(groups: Groups, key: (nat, nat), score: real, reasons: seq<Reason>, at: Instant): Groups {
    groups[key := Rescored(groups, key, score, reasons, at)]
  }

  /** The groups once the pairs in `done` have been processed, each at its clock reading. */
  function Regrouped(groups: Groups, spanish: Normalizer, pairs: map<(nat, nat), Pair>, done: set<(nat, nat)>,
                     clock: ((nat, nat)) -> Instant): Groups
  {
    map key | key in groups.Keys + done && (key in groups || Updates(groups, spanish, pairs, key)) ::
      if key in done && Updates(groups, spanish, pairs, key) then
        Rescored(groups, key, Scored(spanish, pairs[key]).score, Scored(spanish, pairs[key]).reasons, clock(key))
      else groups[key]
  }

  lemma RegroupedAt(groups: Groups, spanish: Normalizer, pairs: map<(nat, nat), Pair>, done: set<(nat, nat)>,
                    clock: ((nat, nat)) -> Instant, key: (nat, nat))
    requires done <= pairs.Keys
    ensures var after := Regrouped(groups, spanish, pairs, done, clock);
            if key in done && Updates(groups, spanish, pairs, key) then
              key in after &&
              after[key] == Rescored(groups, key, Scored(spanish, pairs[key]).score, Scored(spanish, pairs[key]).reasons, clock(key))
            else (key in after <==> key in groups) && (key in after ==> after[key] == groups[key])
  {
    hide Scored, Rescored;
  }

  lemma RegroupedOneMore(groups: Groups, spanish: Normalizer, pairs: map<(nat, nat), Pair>, done: set<(nat, nat)>,
                         clock: ((nat, nat)) -> Instant, key: (nat, nat))
    requires key in pairs && key !in done
    ensures var before := Regrouped(groups, spanish, pairs, done, clock);
            && IsRejected(before, key) == IsRejected(groups, key)
            && Accepts(before, key, clock(key)) == Accepts(groups, key, clock(key))
            && Regrouped(groups, spanish, pairs, done + {key}, clock) ==
                 if Updates(groups, spanish, pairs, key)
                 then Upserted(before, key, Scored(spanish, pairs[key]).score, Scored(spanish, pairs[key]).reasons, clock(key))
                 else before
  {
    hide Scored;
    var before := Regrouped(groups, spanish, pairs, done, clock);
    assert key in before <==> key in groups;
    assert key in groups ==> before[key] == groups[key];
  }

  // ---------- Where a batch stops ----------

  predicate KeyBefore(a: (nat, nat), b: (nat, nat)) { a.0 < b.0 || (a.0 == b.0 && a.1 < b.1) }

  /** Storing this pair raises. */
  predicate Blocked(groups: Groups, spanish: Normalizer, pairs: map<(nat, nat), Pair>, clock: ((nat, nat)) -> Instant, key: (nat, nat)) {
    Updates(groups, spanish, pairs, key) && !Accepts(groups, key, clock(key))
  }

  /** The pairs that come before every one that raises; each is stored in its own transaction. */
  function Stored(groups: Groups, spanish: Normalizer, pairs: map<(nat, nat), Pair>, clock: ((nat, nat)) -> Instant): set<(nat, nat)> {
    set key | key in pairs &&
              forall other {:trigger Blocked(groups, spanish, pairs, clock, other)} ::
                other in pairs && Blocked(groups, spanish, pairs, clock, other) ==> KeyBefore(key, other)
  }

  /** For a clock reading no earlier than the group's creation, a pair is blocked exactly in the rest
      of the second of a creation on a full second. */
  lemma BlockedOnlyInTheFullSecond(groups: Groups, spanish: Normalizer, pairs: map<(nat, nat), Pair>,
                                   clock: ((nat, nat)) -> Instant, key: (nat, nat))
    requires key in groups ==> groups[key].createdAt <= clock(key)
    ensures Blocked(groups, spanish, pairs, clock, key) <==>
              Updates(groups, spanish, pairs, key) && key in groups &&
              var created := groups[key].createdAt;
              created != clock(key) && Micros(created) == 0 && Second(created) == Second(clock(key))
  {
    if key in groups { LaterIsStoredAtMost(groups[key].createdAt, clock(key)); }
    hide Updates;
  }

  /** The groups after a batch with the given sources. */
  function AfterBatch(groups: Groups, listings: Listings, spanish: Normalizer, sources: seq<nat>, limit: nat,
                      clock: ((nat, nat)) -> Instant): Groups
    requires forall i :: 0 <= i < |sources| ==> sources[i] in listings
  {
    var pairs := Collected(listings, spanish, sources, limit);
    Regrouped(groups, spanish, pairs, Stored(groups, spanish, pairs, clock), clock)
  }

  /** Brute force would find the pair from one of the sources, and nobody has rejected it. */
  predicate Due(groups: Groups, listings: Listings, spanish: Normalizer, sources: seq<nat>, a: nat, b: nat)
    requires a in listings && b in listings
  {
    && Duplicates(spanish, listings[a], listings[b])
    && (ReachedFrom(listings, sources, a, b) || ReachedFrom(listings, sources, b, a))
    && !IsRejected(groups, Key(a, b))
  }

  /** A batch scores exactly the duplicates that brute force would find from its sources and that
      come before a pair that raises; it leaves rejected pairs alone, and keeps every other group. */
  lemma BatchGroupsExactlyTheDuplicates(groups: Groups, listings: Listings, spanish: Normalizer, sources: seq<nat>, limit: nat,
                                        clock: ((nat, nat)) -> Instant, a: nat, b: nat)
    requires Checked(listings) && spanish("") == [] && a in listings && b in listings && a != b
    requires forall i :: 0 <= i < |sources| ==> sources[i] in listings
    requires Uncut(listings, sources, limit, a) && Uncut(listings, sources, limit, b)
    ensures var after, key := AfterBatch(groups, listings, spanish, sources, limit, clock), Key(a, b);
            var score := ScoreOf(spanish, listings[a], listings[b]);
            var stored := Stored(groups, spanish, Collected(listings, spanish, sources, limit), clock);
            if Due(groups, listings, spanish, sources, a, b) && key in stored then
              key in after && after[key] == Rescored(groups, key, score.score, score.reasons, clock(key))
            else
              (key in after <==> key in groups) && (key in after ==> after[key] == groups[key])
  {
    GeneratedAreAllDuplicates(listings, spanish, sources, limit, a, b);
    CollectedWhenFound(listings, spanish, sources, limit, a, b);
    ScoreIsSymmetric(spanish, listings[a], listings[b]);
    var pairs := Collected(listings, spanish, sources, limit);
    var stored := Stored(groups, spanish, pairs, clock);
    assert stored <= pairs.Keys;
    RegroupedAt(groups, spanish, pairs, stored, clock, Key(a, b));
    hide ScoreOf, Duplicates, Finds, Collected, Key, Candidates, Regrouped, Uncut, Checked, Stored, Rescored, ReachedFrom;
  }

  ghost predicate NoneBlocked(groups: Groups, spanish: Normalizer, pairs: map<(nat, nat), Pair>, clock: ((nat, nat)) -> Instant,
                              done: set<(nat, nat)>)
  {
    forall key {:trigger Blocked(groups, spanish, pairs, clock, key)} :: key in done ==> !Blocked(groups, spanish, pairs, clock, key)
  }

  /** When nothing raises, every pair is stored. */
  lemma UnblockedBatchStoresAll(groups: Groups, spanish: Normalizer, pairs: map<(nat, nat), Pair>, clock: ((nat, nat)) -> Instant)
    requires NoneBlocked(groups, spanish, pairs, clock, pairs.Keys)
    ensures Stored(groups, spanish, pairs, clock) == pairs.Keys
  {
    hide Blocked;
  }

  /** Processing a batch again, at any clock readings, changes nothing but when a group was last updated. */
  lemma BatchIsIdempotent(groups: Groups, listings: Listings, spanish: Normalizer, sources: seq<nat>, limit: nat,
                          clock: ((nat, nat)) -> Instant, later: ((nat, nat)) -> Instant)
    requires forall i :: 0 <= i < |sources| ==> sources[i] in listings
    requires var pairs := Collected(listings, spanish, sources, limit);
             NoneBlocked(groups, spanish, pairs, clock, pairs.Keys)
    ensures var after := AfterBatch(groups, listings, spanish, sources, limit, clock);
            var again := AfterBatch(after, listings, spanish, sources, limit, later);
            && again.Keys == after.Keys
            && forall key :: key in after ==> again[key] == after[key].(updatedAt := again[key].updatedAt)
  {
    hide Collected, Stored, NoneBlocked, Regrouped;
    var pairs := Collected(listings, spanish, sources, limit);
    UnblockedBatchStoresAll(groups, spanish, pairs, clock);
    var after := AfterBatch(groups, listings, spanish, sources, limit, clock);
    StoredAreCollected(after, spanish, pairs, later);
    RegroupedAgain(groups, spanish, pairs, Stored(after, spanish, pairs, later), clock, later);
  }

  lemma RegroupedAgain(groups: Groups, spanish: Normalizer, pairs: map<(nat, nat), Pair>, stored: set<(nat, nat)>,
                       clock: ((nat, nat)) -> Instant, later: ((nat, nat)) -> Instant)
    requires stored <= pairs.Keys
    ensures var after := Regrouped(groups, spanish, pairs, pairs.Keys, clock);
            var again := Regrouped(after, spanish, pairs, stored, later);
            again.Keys == after.Keys && forall key :: key in after ==> again[key] == after[key].(updatedAt := again[key].updatedAt)
  {
    hide Regrouped;
    var after := Regrouped(groups, spanish, pairs, pairs.Keys, clock);
    var again := Regrouped(after, spanish, pairs, stored, later);
    forall key ensures (key in again <==> key in after) && (key in after ==> again[key] == after[key].(updatedAt := again[key].updatedAt)) {
      AgainAt(groups, spanish, pairs, stored, clock, later, key);
    }
  }

  lemma AgainAt(groups: Groups, spanish: Normalizer, pairs: map<(nat, nat), Pair>, stored: set<(nat, nat)>,
                clock: ((nat, nat)) -> Instant, later: ((nat, nat)) -> Instant, key: (nat, nat))
    requires stored <= pairs.Keys
    ensures var after := Regrouped(groups, spanish, pairs, pairs.Keys, clock);
            var again := Regrouped(after, spanish, pairs, stored, later);
            (key in again <==> key in after) && (key in after ==> again[key] == after[key].(updatedAt := again[key].updatedAt))
  {
    hide Scored, Regrouped;
    var after := Regrouped(groups, spanish, pairs, pairs.Keys, clock);
    RegroupedAt(groups, spanish, pairs, pairs.Keys, clock, key);
    RegroupedAt(after, spanish, pairs, stored, later, key);
  }

  lemma StoredAreCollected(groups: Groups, spanish: Normalizer, pairs: map<(nat, nat), Pair>, clock: ((nat, nat)) -> Instant)
    ensures Stored(groups, spanish, pairs, clock) <= pairs.Keys
  {
    hide Blocked;
  }

  // ---------- What the stored groups say ----------

  /** The score and the reasons of the group are those of one eligible comparison. */
  ghost predicate Explained(g: Group) {
    exists f: Findings {:trigger Judged(f)} :: f.Sound() && Judged(f).eligible && g.score == Judged(f).score && g.reasons == Judged(f).reasons
  }

  ghost predicate AllExplained(groups: Groups) { forall key :: key in groups ==> Explained(groups[key]) }

  datatype Action =
    | Batch(listings: Listings, sources: seq<nat>, limit: nat, clock: ((nat, nat)) -> Instant)
    | Decide(key: (nat, nat), state: ReviewState, at: Instant)

  /** `set_review_state`: a decision is taken once, on a pending group. */
  function Decided(groups: Groups, key: (nat, nat), state: ReviewState, at: Instant): Result<Groups, Error> {
    if state.Pending? then Raised(ValueError)
    else if key !in groups then Raised(LookupError)
    else if !groups[key].reviewState.Pending? then Raised(AlreadyReviewedError)
    else if !StoredAtMost(groups[key].createdAt, at) then Raised(IntegrityError)
    else Ok(groups[key := groups[key].(reviewState := state, reviewedAt := Some(at), updatedAt := at)])
  }

  /** Listings may change from batch to batch; a batch with an unknown source raises at once. */
  function Apply(groups: Groups, spanish: Normalizer, action: Action): Groups {
    match action
    case Batch(listings, sources, limit, clock) =>
      if forall i :: 0 <= i < |sources| ==> sources[i] in listings
      then AfterBatch(groups, listings, spanish, sources, limit, clock)
      else groups
    case Decide(key, state, at) =>
      match Decided(groups, key, state, at)
      case Ok(after) => after
      case Raised(_) => groups
  }

  function Run(groups: Groups, spanish: Normalizer, actions: seq<Action>): Groups
    decreases |actions|
  {
    if actions == [] then groups else Run(Apply(groups, spanish, actions[0]), spanish, actions[1..])
  }

  /** A decision, once taken, and the creation and members of a group, are never changed. */
  predicate Continues(before: Groups, after: Groups) {
    forall key :: key in before ==> key in after && GroupContinues(before[key], after[key])
  }

  predicate GroupContinues(before: Group, after: Group) {
    && after.createdAt == before.createdAt && after.members == before.members
    && (!before.reviewState.Pending? ==> after.reviewState == before.reviewState && after.reviewedAt == before.reviewedAt)
    && (before.reviewState.Rejected? ==> after == before)
  }

  lemma BatchKeepsAt(groups: Groups, spanish: Normalizer, pairs: map<(nat, nat), Pair>, stored: set<(nat, nat)>,
                     clock: ((nat, nat)) -> Instant, key: (nat, nat))
    requires stored <= pairs.Keys && (key in groups ==> Explained(groups[key]))
    ensures var after := Regrouped(groups, spanish, pairs, stored, clock);
            && (key in after ==> Explained(after[key]))
            && (key in groups ==> key in after && GroupContinues(groups[key], after[key]))
  {
    hide Scored, Regrouped, Explained;
    var after := Regrouped(groups, spanish, pairs, stored, clock);
    RegroupedAt(groups, spanish, pairs, stored, clock, key);
    if key in stored && Updates(groups, spanish, pairs, key) { ScoredIsExplained(spanish, pairs[key], after[key]); }
  }

  lemma DecisionKeepsAt(groups: Groups, key: (nat, nat), state: ReviewState, at: Instant)
    requires AllExplained(groups) && Decided(groups, key, state, at).Ok?
    ensures var after := Decided(groups, key, state, at).value;
            AllExplained(after) && Continues(groups, after)
  {
    hide Explained, StoredAtMost;
    SameScoreIsExplained(groups[key], Decided(groups, key, state, at).value[key]);
  }

  lemma RegroupingKeeps(groups: Groups, spanish: Normalizer, pairs: map<(nat, nat), Pair>, stored: set<(nat, nat)>,
                        clock: ((nat, nat)) -> Instant)
    requires stored <= pairs.Keys && AllExplained(groups)
    ensures var after := Regrouped(groups, spanish, pairs, stored, clock);
            AllExplained(after) && Continues(groups, after)
  {
    hide Explained, GroupContinues, Regrouped;
    var after := Regrouped(groups, spanish, pairs, stored, clock);
    forall k ensures (k in after ==> Explained(after[k])) && (k in groups ==> k in after && GroupContinues(groups[k], after[k])) {
      BatchKeepsAt(groups, spanish, pairs, stored, clock, k);
    }
  }

  lemma ApplyKeeps(groups: Groups, spanish: Normalizer, action: Action)
    requires AllExplained(groups)
    ensures AllExplained(Apply(groups, spanish, action)) && Continues(groups, Apply(groups, spanish, action))
  {
    hide Collected, Stored, Regrouped, Explained, Decided;
    match action {
      case Decide(key, state, at) =>
        if Decided(groups, key, state, at).Ok? { DecisionKeepsAt(groups, key, state, at); }
      case Batch(listings, sources, limit, clock) =>
        if forall i :: 0 <= i < |sources| ==> sources[i] in listings {
          var pairs := Collected(listings, spanish, sources, limit);
          StoredAreCollected(groups, spanish, pairs, clock);
          RegroupingKeeps(groups, spanish, pairs, Stored(groups, spanish, pairs, clock), clock);
        }
    }
  }

  lemma SameScoreIsExplained(g: Group, h: Group)
    requires Explained(g) && g.score == h.score && g.reasons == h.reasons
    ensures Explained(h)
  {
  }

  lemma ScoredIsExplained(spanish: Normalizer, pair: Pair, g: Group)
    requires Scored(spanish, pair).eligible && g.score == Scored(spanish, pair).score && g.reasons == Scored(spanish, pair).reasons
    ensures Explained(g)
  {
    hide Judged, Compare;
    ComparisonIsSound(spanish, pair.first, pair.second);
    assert Scored(spanish, pair) == Judged(Compare(spanish, pair.first, pair.second));
  }

  /** Over any batches and reviews, every stored group carries the reasons of an eligible comparison,
      and decisions, members and rejected groups stay as they are. */
  lemma {:induction false} RunKeeps(groups: Groups, spanish: Normalizer, actions: seq<Action>)
    requires AllExplained(groups)
    ensures AllExplained(Run(groups, spanish, actions)) && Continues(groups, Run(groups, spanish, actions))
    decreases |actions|
  {
    hide AllExplained, Apply;
    if actions != [] {
      ApplyKeeps(groups, spanish, actions[0]);
      RunKeeps(Apply(groups, spanish, actions[0]), spanish, actions[1..]);
    }
  }

  /** A stored group of high confidence had an exact address match when it was last scored. */
  lemma HighGroupHasExactAddress(spanish: Normalizer, actions: seq<Action>, key: (nat, nat))
    requires key in Run(map[], spanish, actions) && Run(map[], spanish, actions)[key].Confidence() == High
    ensures Evidence(ExactAddress, Yes, 0.30, NoDetail) in Run(map[], spanish, actions)[key].reasons
  {
    RunKeeps(map[], spanish, actions);
    var g := Run(map[], spanish, actions)[key];
    hide Run, Judged;
    var f: Findings :| f.Sound() && Judged(f).eligible && g.score == Judged(f).score && g.reasons == Judged(f).reasons;
    HighJudgementHasAddress(f);
  }

  lemma HighJudgementHasAddress(f: Findings)
    requires f.Sound() && Judged(f).score >= HIGH
    ensures Evidence(ExactAddress, Yes, 0.30, NoDetail) in Judged(f).reasons
  {
    ScoreIsAFraction(f);
    ThresholdReached(Total(f));
    hide Rounded;
    assert f.address;
    assert Judged(f).reasons[1] == Evidence(ExactAddress, Yes, 0.30, NoDetail);
  }
}
