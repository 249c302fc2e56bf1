/** The repository of candidate groups, the pair generator, and the processing of a batch. */
module DuplicateCandidates {
  import opened Wrappers
  import opened Ordering
  import opened Timestamps
  import opened DuplicateMatching
  import opened DuplicateScoring
  import opened DuplicateNarrowing
  import opened DuplicateGroups

  // ---------- The repository ----------

  /** The rows of a pool, greatest id first. */
  predicate ListsPool(rows: seq<Snapshot>, listings: Listings, pool: set<nat>) {
    && (forall i :: 0 <= i < |rows| ==> rows[i].id in pool && rows[i].id in listings && rows[i] == listings[rows[i].id])
    && (forall i, j :: 0 <= i < j < |rows| ==> rows[i].id > rows[j].id)
    && (forall id :: id in pool ==> exists i :: 0 <= i < |rows| && rows[i].id == id)
  }

  lemma RowsListPool(listings: Listings, pool: set<nat>, ids: seq<nat>, rows: seq<Snapshot>)
    requires pool <= listings.Keys && Checked(listings) && ids == Sorted(pool, map id | id in pool :: -id)
    requires |rows| == |ids| && forall i :: 0 <= i < |ids| ==> ids[i] in pool && rows[i] == listings[ids[i]]
    ensures ListsPool(rows, listings, pool)
  {
    SortedDown(pool, ids);
    forall id | id in pool ensures exists i :: 0 <= i < |rows| && rows[i].id == id {
      var i :| 0 <= i < |ids| && ids[i] == id;
      assert rows[i].id == id;
    }
  }

  lemma SortedDown(pool: set<nat>, ids: seq<nat>)
    requires ids == Sorted(pool, map id | id in pool :: -id)
    ensures forall i, j :: 0 <= i < j < |ids| ==> ids[i] > ids[j]
  {
    var key: map<nat, int> := map id | id in pool :: -id;
    forall i, j | 0 <= i < j < |ids| ensures ids[i] > ids[j] {
      assert ids[i] in pool && ids[j] in pool && Before(key, ids[i], ids[j]);
    }
  }

  class DuplicateCandidateRepository {
    const listings: Listings
    var groups: Groups

    constructor (listings: Listings)
      ensures this.listings == listings && groups == map[]
    {
      this.listings, groups := listings, map[];
    }

    method ListingSnapshot(id: nat) returns (result: Result<Snapshot, Error>)
      ensures result == if id in listings then Ok(listings[id]) else Raised(LookupError)
    {
      if id !in listings { return Raised(LookupError); }
      return Ok(listings[id]);
    }

    method PotentialMatches(id: nat, limit: int, windows: Windows) returns (result: Result<seq<Snapshot>, Error>)
      requires Checked(listings)
      ensures result.Raised? <==> !(1 <= limit <= 500) || !windows.Valid() || id !in listings
      ensures result.Raised? ==> result.error == if 1 <= limit <= 500 && windows.Valid() then LookupError else ValueError
      ensures result.Ok? ==> ListsPool(result.value, listings, Pool(listings, listings[id], windows, limit))
    {
      hide Checked, ListsPool, Candidates;
      if !(1 <= limit <= 500) { return Raised(ValueError); }
      if !windows.Valid() { return Raised(ValueError); }
      var source :- ListingSnapshot(id);
      var pool := Pool(listings, source, windows, limit);
      PoolIsNarrowed(listings, source, windows, limit);
      hide Pool;
      var rows := PoolRows(pool);
      return Ok(rows);
    }

    /** The rows of the pool, in descending order of id. */
    method PoolRows(pool: set<nat>) returns (rows: seq<Snapshot>)
      requires Checked(listings) && pool <= listings.Keys
      ensures ListsPool(rows, listings, pool)
    {
      hide Checked, ListsPool;
      var ids := Sorted(pool, map id | id in pool :: -id);
      rows := [];
      for i := 0 to |ids|
        invariant |rows| == i && forall j :: 0 <= j < i ==> ids[j] in pool && rows[j] == listings[ids[j]]
      {
        assert ids[i] in pool;
        rows := rows + [listings[ids[i]]];
      }
      RowsListPool(listings, pool, ids, rows);
    }

    method UpsertPair(first: nat, second: nat, score: real, reasons: seq<Reason>, at: Instant) returns (result: Result<(), Error>)
      modifies this`groups
      ensures result == if first == 0 || second == 0 || first == second || !(0.0 <= score <= 1.0) || reasons == [] then Raised(ValueError)
                        else if first !in listings || second !in listings then Raised(LookupError)
                        else if listings[first].portal == listings[second].portal then Raised(ValueError)
                        else if !Accepts(old(groups), Key(first, second), at) then Raised(IntegrityError)
                        else Ok(())
      ensures groups == if result.Ok? then Upserted(old(groups), Key(first, second), score, reasons, at) else old(groups)
    {
      if first == 0 || second == 0 || first == second { return Raised(ValueError); }
      if !(0.0 <= score <= 1.0) || reasons == [] { return Raised(ValueError); }
      if first !in listings || second !in listings { return Raised(LookupError); }
      if listings[first].portal == listings[second].portal { return Raised(ValueError); }
      var key := Key(first, second);
      if key in groups {
        if !StoredAtMost(groups[key].createdAt, at) { return Raised(IntegrityError); }
        groups := groups[key := groups[key].(score := score, reasons := reasons, updatedAt := at)];
      } else {
        groups := groups[key := Group(score, reasons, Pending, at, at, None, map[key.0 := at, key.1 := at])];
      }
      return Ok(());
    }

    method IsRejectedPair(first: nat, second: nat) returns (result: Result<bool, Error>)
      ensures result == if first == 0 || second == 0 || first == second then Raised(ValueError)
                        else Ok(IsRejected(groups, Key(first, second)))
    {
      if first == 0 || second == 0 || first == second { return Raised(ValueError); }
      var key := Key(first, second);
      return Ok(key in groups && groups[key].reviewState.Rejected?);
    }

    /** Only a pending group can be reviewed, and not at a time whose text sorts before its creation. */
    method SetReviewState(key: (nat, nat), state: ReviewState, at: Instant) returns (result: Result<(), Error>)
      modifies this`groups
      ensures match Decided(old(groups), key, state, at)
              case Ok(after) => result == Ok(()) && groups == after
              case Raised(error) => result == Raised(error) && groups == old(groups)
    {
      if state.Pending? { return Raised(ValueError); }
      if key in groups && groups[key].reviewState.Pending? {
        if !StoredAtMost(groups[key].createdAt, at) { return Raised(IntegrityError); }
        groups := groups[key := groups[key].(reviewState := state, reviewedAt := Some(at), updatedAt := at)];
        return Ok(());
      }
      return Raised(if key !in groups then LookupError else AlreadyReviewedError);
    }
  }

  // ---------- The generator ----------

  predicate IsLeastKey(keys: set<(nat, nat)>, least: (nat, nat)) {
    least in keys && forall key :: key in keys && key != least ==> KeyBefore(least, key)
  }

  lemma {:induction false} LeastKeyExists(keys: set<(nat, nat)>)
    requires keys != {}
    ensures exists least :: IsLeastKey(keys, least)
  {
    var a :| a in keys;
    if keys == {a} {
      assert IsLeastKey(keys, a);
    } else {
      LeastKeyExists(keys - {a});
      var m :| IsLeastKey(keys - {a}, m);
      var least := if KeyBefore(a, m) then a else m;
      forall key | key in keys && key != least ensures KeyBefore(least, key) {
        assert key == a || key in keys - {a};
      }
      assert IsLeastKey(keys, least);
    }
  }

  function KeyOf(pair: Pair): (nat, nat) { Key(pair.first.id, pair.second.id) }

  /** The values of `pairs`, each once, in key order. */
  predicate InKeyOrder(sorted: seq<Pair>, pairs: map<(nat, nat), Pair>) {
    && (forall i :: 0 <= i < |sorted| ==> KeyOf(sorted[i]) in pairs && sorted[i] == pairs[KeyOf(sorted[i])])
    && (forall i, j :: 0 <= i < j < |sorted| ==> KeyBefore(KeyOf(sorted[i]), KeyOf(sorted[j])))
    && (forall key :: key in pairs ==> exists i :: 0 <= i < |sorted| && KeyOf(sorted[i]) == key)
  }

  datatype GenerationResult = GenerationResult(pairs: seq<Pair>, sourcesConsidered: nat, truncatedSources: bool)

  function Chosen(ids: seq<nat>, most: nat): seq<nat> {
    var distinct := FirstOccurrences(ids);
    if |distinct| <= most then distinct else distinct[..most]
  }

  method SortByKey(pairs: map<(nat, nat), Pair>) returns (sorted: seq<Pair>)
    requires forall key :: key in pairs ==> KeyOf(pairs[key]) == key
    ensures InKeyOrder(sorted, pairs)
  {
    sorted := [];
    var remaining := pairs.Keys;
    hide Key;
    while remaining != {}
      invariant remaining <= pairs.Keys
      invariant forall i :: 0 <= i < |sorted| ==> KeyOf(sorted[i]) in pairs.Keys - remaining && sorted[i] == pairs[KeyOf(sorted[i])]
      invariant forall i, j :: 0 <= i < j < |sorted| ==> KeyBefore(KeyOf(sorted[i]), KeyOf(sorted[j]))
      invariant forall i, key :: 0 <= i < |sorted| && key in remaining ==> KeyBefore(KeyOf(sorted[i]), key)
      invariant forall key :: key in pairs.Keys - remaining ==> exists i :: 0 <= i < |sorted| && KeyOf(sorted[i]) == key
      decreases remaining
    {
      LeastKeyExists(remaining);
      var least :| IsLeastKey(remaining, least);
      var before := sorted;
      sorted := sorted + [pairs[least]];
      forall key | key in pairs.Keys - (remaining - {least}) ensures exists i :: 0 <= i < |sorted| && KeyOf(sorted[i]) == key {
        if key == least {
          assert KeyOf(sorted[|before|]) == key;
        } else {
          assert key in pairs.Keys - remaining;
          var i :| 0 <= i < |before| && KeyOf(before[i]) == key;
          assert KeyOf(sorted[i]) == key;
        }
      }
      remaining := remaining - {least};
    }
    forall key | key in pairs ensures exists i :: 0 <= i < |sorted| && KeyOf(sorted[i]) == key {
      assert key in pairs.Keys - remaining;
    }
  }

  function IdsOf(rows: seq<Snapshot>): set<nat> { set i | 0 <= i < |rows| :: rows[i].id }

  lemma IdsOfOneMore(rows: seq<Snapshot>, i: nat)
    requires i < |rows|
    ensures IdsOf(rows[..i + 1]) == IdsOf(rows[..i]) + {rows[i].id}
  {
    assert forall j :: 0 <= j < i ==> rows[..i + 1][j] == rows[..i][j];
    assert rows[..i + 1][i] == rows[i];
  }

  lemma PoolListed(rows: seq<Snapshot>, listings: Listings, pool: set<nat>)
    requires ListsPool(rows, listings, pool)
    ensures IdsOf([]) == {} && IdsOf(rows) == pool
    ensures forall i :: 0 <= i < |rows| ==> rows[i].id in listings && rows[i] == listings[rows[i].id]
  {
  }

  lemma OnePairMore(listings: Listings, spanish: Normalizer, source: Snapshot, ids: set<nat>, id: nat, before: map<(nat, nat), Pair>)
    requires ids <= listings.Keys && id in listings && listings[id].id == id
    ensures var pairs := PairsWith(listings, spanish, source, ids) + before;
            PairsWith(listings, spanish, source, ids + {id}) + before ==
              if Plausible(spanish, source, listings[id]) && Key(source.id, id) !in pairs
              then pairs[Key(source.id, id) := Pair(source, listings[id])]
              else pairs
  {
    hide Plausible;
  }

  lemma PairsKeepKeys(listings: Listings, spanish: Normalizer, source: Snapshot, pool: set<nat>, before: map<(nat, nat), Pair>)
    requires pool <= listings.Keys && Checked(listings) && forall key :: key in before ==> KeyOf(before[key]) == key
    ensures var pairs := PairsWith(listings, spanish, source, pool) + before;
            forall key :: key in pairs ==> KeyOf(pairs[key]) == key
  {
    hide Plausible;
  }

  lemma NothingCollected(listings: Listings, spanish: Normalizer, limit: nat)
    ensures Collected(listings, spanish, [], limit) == map[]
  {
  }

  lemma CollectedOneMore(listings: Listings, spanish: Normalizer, sources: seq<nat>, s: nat, limit: nat)
    requires s < |sources| && forall i :: 0 <= i <= s ==> sources[i] in listings
    requires Checked(listings)
    ensures var source := listings[sources[s]];
            && source.id == sources[s]
            && Pool(listings, source, WINDOWS, limit) <= listings.Keys
            && Collected(listings, spanish, sources[..s + 1], limit) ==
                 PairsWith(listings, spanish, source, Pool(listings, source, WINDOWS, limit)) + Collected(listings, spanish, sources[..s], limit)
  {
    hide Pool, PairsWith;
    PoolIsNarrowed(listings, listings[sources[s]], WINDOWS, limit);
    assert sources[..s + 1][..s] == sources[..s];
  }

  class DuplicateCandidateGenerator {
    const repository: DuplicateCandidateRepository
    const spanish: Normalizer
    const maxSources: nat
    const maxCandidatesPerSource: nat

    predicate Valid() { 1 <= maxSources <= 1000 && 1 <= maxCandidatesPerSource <= 500 }

    constructor (repository: DuplicateCandidateRepository, spanish: Normalizer, maxSources: nat, maxCandidatesPerSource: nat)
      requires 1 <= maxSources <= 1000 && 1 <= maxCandidatesPerSource <= 500
      ensures Valid() && this.repository == repository && this.spanish == spanish
      ensures this.maxSources == maxSources && this.maxCandidatesPerSource == maxCandidatesPerSource
    {
      this.repository, this.spanish := repository, spanish;
      this.maxSources, this.maxCandidatesPerSource := maxSources, maxCandidatesPerSource;
    }

    /** Pairs of the first sources with their plausible candidates, each pair once, in key order. */
    method Generate(listingIds: seq<nat>) returns (result: Result<GenerationResult, Error>)
      requires Valid() && Checked(repository.listings)
      ensures var sources := Chosen(listingIds, maxSources);
              && (result.Ok? <==> forall i :: 0 <= i < |sources| ==> sources[i] in repository.listings)
              && (result.Raised? ==> result.error == LookupError)
              && (result.Ok? ==>
                    && InKeyOrder(result.value.pairs, Collected(repository.listings, spanish, sources, maxCandidatesPerSource))
                    && result.value.sourcesConsidered == |sources|
                    && result.value.truncatedSources == (|FirstOccurrences(listingIds)| > |sources|))
    {
      var distinct := FirstOccurrences(listingIds);
      var sources := if |distinct| <= maxSources then distinct else distinct[..maxSources];
      var listings := repository.listings;
      var pairs: map<(nat, nat), Pair> := map[];
      assert sources == Chosen(listingIds, maxSources) && WINDOWS.Valid();
      hide Pool, Candidates, Collected, PairsWith, Checked, KeyOf, ListsPool, InKeyOrder, FirstOccurrences, Chosen;
      NothingCollected(listings, spanish, maxCandidatesPerSource);
      for s := 0 to |sources|
        invariant forall i :: 0 <= i < s ==> sources[i] in listings
        invariant pairs == Collected(listings, spanish, sources[..s], maxCandidatesPerSource)
        invariant forall key :: key in pairs ==> KeyOf(pairs[key]) == key
      {
        var source :- repository.ListingSnapshot(sources[s]);
        var rows := repository.PotentialMatches(sources[s], maxCandidatesPerSource, WINDOWS);
        CollectedOneMore(listings, spanish, sources, s, maxCandidatesPerSource);
        pairs := AddPairs(source, rows.value, pairs);
      }
      assert sources[..|sources|] == sources;
      var sorted := SortByKey(pairs);
      return Ok(GenerationResult(sorted, |sources|, |distinct| > |sources|));
    }

    /** The inner loop of `Generate`: a pair that is already there is kept. */
    method AddPairs(source: Snapshot, rows: seq<Snapshot>, before: map<(nat, nat), Pair>) returns (pairs: map<(nat, nat), Pair>)
      requires Valid() && Checked(repository.listings) && source.id in repository.listings
      requires ListsPool(rows, repository.listings, Pool(repository.listings, source, WINDOWS, maxCandidatesPerSource))
      requires forall key :: key in before ==> KeyOf(before[key]) == key
      ensures Pool(repository.listings, source, WINDOWS, maxCandidatesPerSource) <= repository.listings.Keys
      ensures pairs == PairsWith(repository.listings, spanish, source, Pool(repository.listings, source, WINDOWS, maxCandidatesPerSource)) + before
      ensures forall key :: key in pairs ==> KeyOf(pairs[key]) == key
    {
      ghost var pool := Pool(repository.listings, source, WINDOWS, maxCandidatesPerSource);
      PoolIsNarrowed(repository.listings, source, WINDOWS, maxCandidatesPerSource);
      PoolListed(rows, repository.listings, pool);
      hide Pool, Candidates, Plausible, Checked, PairsWith, IdsOf, Key, ListsPool;
      pairs := before;
      for i := 0 to |rows|
        invariant IdsOf(rows[..i]) <= repository.listings.Keys
        invariant pairs == PairsWith(repository.listings, spanish, source, IdsOf(rows[..i])) + before
      {
        IdsOfOneMore(rows, i);
        OnePairMore(repository.listings, spanish, source, IdsOf(rows[..i]), rows[i].id, before);
        if Plausible(spanish, source, rows[i]) {
          var pair := Pair(source, rows[i]);
          if KeyOf(pair) !in pairs { pairs := pairs[KeyOf(pair) := pair]; }
        }
      }
      assert rows[..|rows|] == rows;
      PairsKeepKeys(repository.listings, spanish, source, pool, before);
    }
  }

  // ---------- A batch ----------

  /** Every collected pair can be stored: its listings exist, differ, and are on different portals. */
  lemma {:induction false} CollectedIsStorable(listings: Listings, spanish: Normalizer, sources: seq<nat>, limit: nat, key: (nat, nat))
    requires Checked(listings) && forall i :: 0 <= i < |sources| ==> sources[i] in listings
    requires key in Collected(listings, spanish, sources, limit)
    ensures Storable(listings, Collected(listings, spanish, sources, limit)[key])
    ensures KeyOf(Collected(listings, spanish, sources, limit)[key]) == key
  {
    hide Plausible, Pool;
    var last, init := sources[|sources| - 1], sources[..|sources| - 1];
    if key in Collected(listings, spanish, init, limit) {
      CollectedIsStorable(listings, spanish, init, limit, key);
    } else {
      PoolIsNarrowed(listings, listings[last], WINDOWS, limit);
    }
  }

  predicate Storable(listings: Listings, pair: Pair) {
    && pair.first.id in listings && pair.second.id in listings && pair.first.id > 0 && pair.second.id > 0
    && pair.first == listings[pair.first.id] && pair.second == listings[pair.second.id]
    && pair.first.id != pair.second.id && pair.first.portal != pair.second.portal
  }

  /** Store the score of an eligible pair unless it has been rejected. */
  method ProcessPair(pair: Pair, spanish: Normalizer, repository: DuplicateCandidateRepository, at: Instant)
    returns (result: Result<(), Error>)
    requires Storable(repository.listings, pair)
    modifies repository`groups
    ensures var score := Scored(spanish, pair);
            var before, key := old(repository.groups), KeyOf(pair);
            if IsRejected(before, key) || !score.eligible then result == Ok(()) && repository.groups == before
            else if !Accepts(before, key, at) then result == Raised(IntegrityError) && repository.groups == before
            else result == Ok(()) && repository.groups == Upserted(before, key, score.score, score.reasons, at)
  {
    hide Accepts, Upserted;
    var rejected := repository.IsRejectedPair(pair.first.id, pair.second.id);
    if rejected == Ok(true) { return Ok(()); }
    var score := ScorePair(spanish, pair.first, pair.second);
    if !score.eligible { return Ok(()); }
    ComparisonIsSound(spanish, pair.first, pair.second);
    ScoreIsAFraction(Compare(spanish, pair.first, pair.second));
    result := repository.UpsertPair(pair.first.id, pair.second.id, score.score, score.reasons, at);
  }

  /** Each pair is a transaction of its own: when one raises, the pairs before it stay stored. */
  method ProcessPairs(sorted: seq<Pair>, spanish: Normalizer, repository: DuplicateCandidateRepository,
                      clock: ((nat, nat)) -> Instant, ghost pairs: map<(nat, nat), Pair>)
    returns (result: Result<(), Error>)
    requires InKeyOrder(sorted, pairs) && forall key :: key in pairs ==> Storable(repository.listings, pairs[key])
    modifies repository`groups
    ensures var before := old(repository.groups);
            && repository.groups == Regrouped(before, spanish, pairs, Stored(before, spanish, pairs, clock), clock)
            && (result.Ok? <==> NoneBlocked(before, spanish, pairs, clock, pairs.Keys))
            && (result.Raised? ==> result.error == IntegrityError)
  {
    ghost var groups0 := repository.groups;
    NothingProcessed(groups0, spanish, pairs, clock, sorted);
    hide *;
    for i := 0 to |sorted|
      invariant repository.groups == Regrouped(groups0, spanish, pairs, KeysOf(sorted[..i]), clock)
      invariant NoneBlocked(groups0, spanish, pairs, clock, KeysOf(sorted[..i]))
    {
      NextPair(groups0, spanish, pairs, clock, sorted, i);
      var processed := ProcessPair(sorted[i], spanish, repository, clock(KeyOf(sorted[i])));
      if processed.Raised? { return processed; }
    }
    AllKeys(sorted, pairs);
    UnblockedBatchStoresAll(groups0, spanish, pairs, clock);
    return Ok(());
  }

  lemma NothingProcessed(groups: Groups, spanish: Normalizer, pairs: map<(nat, nat), Pair>, clock: ((nat, nat)) -> Instant, sorted: seq<Pair>)
    ensures KeysOf(sorted[..0]) == {}
    ensures Regrouped(groups, spanish, pairs, {}, clock) == groups && NoneBlocked(groups, spanish, pairs, clock, {})
  {
    hide Scored, Rescored;
  }

  /** What the next pair does to the groups: it raises, being the first that does, or it goes through. */
  lemma NextPair(groups: Groups, spanish: Normalizer, pairs: map<(nat, nat), Pair>, clock: ((nat, nat)) -> Instant, sorted: seq<Pair>, i: nat)
    requires InKeyOrder(sorted, pairs) && i < |sorted| && NoneBlocked(groups, spanish, pairs, clock, KeysOf(sorted[..i]))
    ensures KeyOf(sorted[i]) in pairs && pairs[KeyOf(sorted[i])] == sorted[i]
    ensures var key := KeyOf(sorted[i]);
            var before := Regrouped(groups, spanish, pairs, KeysOf(sorted[..i]), clock);
            var score := Scored(spanish, sorted[i]);
            if !IsRejected(before, key) && score.eligible && !Accepts(before, key, clock(key)) then
              && Stored(groups, spanish, pairs, clock) == KeysOf(sorted[..i])
              && !NoneBlocked(groups, spanish, pairs, clock, pairs.Keys)
            else
              && NoneBlocked(groups, spanish, pairs, clock, KeysOf(sorted[..i + 1]))
              && Regrouped(groups, spanish, pairs, KeysOf(sorted[..i + 1]), clock) ==
                   if IsRejected(before, key) || !score.eligible then before else Upserted(before, key, score.score, score.reasons, clock(key))
  {
    var key := KeyOf(sorted[i]);
    NextKey(sorted, pairs, i);
    RegroupedOneMore(groups, spanish, pairs, KeysOf(sorted[..i]), clock, key);
    NextIsBlocked(groups, spanish, pairs, clock, sorted, i);
    UpdatesWhen(groups, spanish, pairs, key);
    if Blocked(groups, spanish, pairs, clock, key) { BlockedIsSeen(groups, spanish, pairs, clock, key); }
    hide *;
  }

  lemma BlockedIsSeen(groups: Groups, spanish: Normalizer, pairs: map<(nat, nat), Pair>, clock: ((nat, nat)) -> Instant, key: (nat, nat))
    requires key in pairs && Blocked(groups, spanish, pairs, clock, key)
    ensures !NoneBlocked(groups, spanish, pairs, clock, pairs.Keys)
  {
    hide Blocked;
  }

  lemma UpdatesWhen(groups: Groups, spanish: Normalizer, pairs: map<(nat, nat), Pair>, key: (nat, nat))
    requires key in pairs
    ensures Updates(groups, spanish, pairs, key) <==> !IsRejected(groups, key) && Scored(spanish, pairs[key]).eligible
  {
  }

  /** A batch with an unknown source raises before it stores anything; otherwise the groups are those
      of `AfterBatch`, and it raises exactly when one of its pairs does. */
  method ProcessBatch(batch: seq<nat>, repository: DuplicateCandidateRepository, generator: DuplicateCandidateGenerator,
                      clock: ((nat, nat)) -> Instant)
    returns (result: Result<(), Error>)
    requires generator.Valid() && generator.repository == repository && Checked(repository.listings)
    modifies repository`groups
    ensures var sources, before := Chosen(batch, generator.maxSources), old(repository.groups);
            if exists i :: 0 <= i < |sources| && sources[i] !in repository.listings then
              result == Raised(LookupError) && repository.groups == before
            else
              var limit := generator.maxCandidatesPerSource;
              var pairs := Collected(repository.listings, generator.spanish, sources, limit);
              && repository.groups == AfterBatch(before, repository.listings, generator.spanish, sources, limit, clock)
              && (result.Ok? <==> NoneBlocked(before, generator.spanish, pairs, clock, pairs.Keys))
              && (result.Raised? ==> result.error == IntegrityError)
  {
    var generated :- generator.Generate(batch);
    ghost var sources, limit := Chosen(batch, generator.maxSources), generator.maxCandidatesPerSource;
    ghost var pairs := Collected(repository.listings, generator.spanish, sources, limit);
    hide Collected, Checked, Chosen, InKeyOrder, Storable, NoneBlocked, Stored, Regrouped, KeyOf;
    forall key | key in pairs ensures Storable(repository.listings, pairs[key]) {
      CollectedIsStorable(repository.listings, generator.spanish, sources, limit, key);
    }
    result := ProcessPairs(generated.pairs, generator.spanish, repository, clock, pairs);
  }

  /** Either the next pair goes through, or it is the first that raises and those before it are stored. */
  lemma NextIsBlocked(groups: Groups, spanish: Normalizer, pairs: map<(nat, nat), Pair>, clock: ((nat, nat)) -> Instant,
                      sorted: seq<Pair>, i: nat)
    requires InKeyOrder(sorted, pairs) && i < |sorted| && NoneBlocked(groups, spanish, pairs, clock, KeysOf(sorted[..i]))
    ensures var key := KeyOf(sorted[i]);
            Blocked(groups, spanish, pairs, clock, key) <==> Updates(groups, spanish, pairs, key) && !Accepts(groups, key, clock(key))
    ensures !Blocked(groups, spanish, pairs, clock, KeyOf(sorted[i])) ==>
              NoneBlocked(groups, spanish, pairs, clock, KeysOf(sorted[..i]) + {KeyOf(sorted[i])})
    ensures Blocked(groups, spanish, pairs, clock, KeyOf(sorted[i])) ==>
              Stored(groups, spanish, pairs, clock) == KeysOf(sorted[..i])
  {
    hide KeyOf, Updates, Accepts;
    var key := KeyOf(sorted[i]);
    if Blocked(groups, spanish, pairs, clock, key) {
      hide Blocked;
      var before := KeysOf(sorted[..i]);
      forall k | k in before ensures k in Stored(groups, spanish, pairs, clock) {
        var j :| 0 <= j < i && KeyOf(sorted[..i][j]) == k;
        forall other | other in pairs && Blocked(groups, spanish, pairs, clock, other) ensures KeyBefore(k, other) {
          var n :| 0 <= n < |sorted| && KeyOf(sorted[n]) == other;
          assert KeyBefore(KeyOf(sorted[j]), KeyOf(sorted[n]));
        }
      }
      forall k | k in Stored(groups, spanish, pairs, clock) ensures k in before {
        assert KeyBefore(k, key);
        var n :| 0 <= n < |sorted| && KeyOf(sorted[n]) == k;
        assert n < i ==> KeyOf(sorted[..i][n]) in before;
      }
    }
  }

  function KeysOf(pairs: seq<Pair>): set<(nat, nat)> { set i | 0 <= i < |pairs| :: KeyOf(pairs[i]) }

  lemma NextKey(sorted: seq<Pair>, pairs: map<(nat, nat), Pair>, i: nat)
    requires InKeyOrder(sorted, pairs) && i < |sorted|
    ensures KeyOf(sorted[i]) in pairs && sorted[i] == pairs[KeyOf(sorted[i])] && KeyOf(sorted[i]) !in KeysOf(sorted[..i])
    ensures KeysOf(sorted[..i + 1]) == KeysOf(sorted[..i]) + {KeyOf(sorted[i])}
  {
    hide KeyOf;
    var before, after := sorted[..i], sorted[..i + 1];
    assert forall j :: 0 <= j < i ==> after[j] == before[j];
    assert after[i] == sorted[i];
    forall j | 0 <= j < i ensures KeyOf(before[j]) != KeyOf(sorted[i]) {
      assert KeyBefore(KeyOf(sorted[j]), KeyOf(sorted[i]));
    }
  }

  lemma AllKeys(sorted: seq<Pair>, pairs: map<(nat, nat), Pair>)
    requires InKeyOrder(sorted, pairs)
    ensures KeysOf(sorted[..|sorted|]) == pairs.Keys && KeysOf(sorted[..0]) == {}
  {
    hide KeyOf;
    assert sorted[..|sorted|] == sorted;
  }
}
