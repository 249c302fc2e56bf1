/** Which pairs of listings reach the scorer, and why none that matters is lost. */
module DuplicateNarrowing {
  import opened Wrappers
  import opened Ordering
  import opened DuplicateMatching
  import opened DuplicateScoring

  type Listings = map<nat, Snapshot>

  /** Ids are keys, and the table's checks hold. */
  predicate Checked(listings: Listings) {
    forall id :: id in listings ==>
      var row := listings[id];
      row.id == id && id > 0 && (row.price.Some? ==> row.price.value >= 0) && (row.rooms.Some? ==> row.rooms.value >= 0)
      && (row.area.Some? ==> row.area.value > 0.0)
  }

  // ---------- The narrowing query ----------

  /** SQLite's `NOCASE` folds ASCII capitals and nothing else. */
  function NoCase(text: string): string {
    seq(|text|, i requires 0 <= i < |text| => if 'A' <= text[i] <= 'Z' then ((text[i] as int) + 32) as char else text[i])
  }

  /** How far the query looks to either side of the source's price and area. */
  datatype Windows = Windows(price: real, area: real) {
    predicate Valid() { 0.0 <= price <= 0.5 && 0.0 <= area <= 0.5 }
  }

  const WINDOWS: Windows := Windows(0.15, 0.15)

  predicate Within(value: real, centre: real, window: real) { centre * (1.0 - window) <= value <= centre * (1.0 + window) }

  predicate SameNoCase(first: Option<string>, second: Option<string>) {
    first.Some? && second.Some? && NoCase(first.value) == NoCase(second.value)
  }

  predicate Narrowed(source: Snapshot, row: Snapshot, windows: Windows) {
    && row.transactionType == source.transactionType
    && SameNoCase(row.location, source.location)
    && row.portal != source.portal && row.id != source.id
    && (source.rooms.None? || row.rooms.None? || row.rooms == source.rooms)
    && (source.propertyType.UnknownType? || row.propertyType.UnknownType? || row.propertyType == source.propertyType)
    && (source.price.None? || row.price.None? || Within(row.price.value as real, source.price.value as real, windows.price))
    && (source.area.None? || row.area.None? || Within(row.area.value, source.area.value, windows.area))
  }

  /** Every row the query's conditions admit; a source without a location has none. */
  function Candidates(listings: Listings, source: Snapshot, windows: Windows): set<nat> {
    if source.location.None? || source.location.value == "" then {}
    else set id | id in listings && Narrowed(source, listings[id], windows)
  }

  /** The admitted rows with the greatest ids. */
  function Pool(listings: Listings, source: Snapshot, windows: Windows, limit: nat): set<nat> {
    var ids := Candidates(listings, source, windows);
    ids - BeyondLimit(ids, (map id | id in ids :: 0), limit)
  }

  // ---------- Generated pairs ----------

  function KnownStructuralMatches(first: Snapshot, second: Snapshot): nat {
    (if !first.propertyType.UnknownType? && first.propertyType == second.propertyType then 1 else 0)
    + (if first.rooms.Some? && first.rooms == second.rooms then 1 else 0)
    + (if first.area.Some? && second.area.Some? then 1 else 0)
    + (if first.price.Some? && second.price.Some? then 1 else 0)
  }

  predicate Plausible(spanish: Normalizer, first: Snapshot, second: Snapshot) {
    SameLocation(spanish, first, second) && KnownStructuralMatches(first, second) >= 2
  }

  datatype Pair = Pair(first: Snapshot, second: Snapshot)

  function Key(a: nat, b: nat): (nat, nat) { if a <= b then (a, b) else (b, a) }

  function PairsWith(listings: Listings, spanish: Normalizer, source: Snapshot, pool: set<nat>): map<(nat, nat), Pair>
    requires pool <= listings.Keys
  {
    map id | id in pool && Plausible(spanish, source, listings[id]) :: Key(source.id, id) := Pair(source, listings[id])
  }

  /** The pairs of the sources in order; the first source to find a pair keeps it. */
  function Collected(listings: Listings, spanish: Normalizer, sources: seq<nat>, limit: nat): map<(nat, nat), Pair>
    requires forall i :: 0 <= i < |sources| ==> sources[i] in listings
  {
    if sources == [] then map[]
    else
      var source := listings[sources[|sources| - 1]];
      PairsWith(listings, spanish, source, Pool(listings, source, WINDOWS, limit))
      + Collected(listings, spanish, sources[..|sources| - 1], limit)
  }

  predicate Finds(listings: Listings, spanish: Normalizer, limit: nat, source: nat, id: nat) {
    source in listings && id in Pool(listings, listings[source], WINDOWS, limit) && Plausible(spanish, listings[source], listings[id])
  }

  /** A pair is collected exactly when one of the sources finds it, in either direction, and it is
      kept as that source found it. */
  lemma {:induction false} CollectedWhenFound(listings: Listings, spanish: Normalizer, sources: seq<nat>, limit: nat, a: nat, b: nat)
    requires Checked(listings) && forall i :: 0 <= i < |sources| ==> sources[i] in listings
    ensures var pairs := Collected(listings, spanish, sources, limit);
            && (Key(a, b) in pairs <==>
                  (a in sources && Finds(listings, spanish, limit, a, b)) || (b in sources && Finds(listings, spanish, limit, b, a)))
            && (Key(a, b) in pairs ==>
                  a in listings && b in listings && pairs[Key(a, b)] in {Pair(listings[a], listings[b]), Pair(listings[b], listings[a])})
  {
    hide Plausible, Pool;
    if sources != [] {
      var last, init := sources[|sources| - 1], sources[..|sources| - 1];
      assert sources == init + [last];
      CollectedWhenFound(listings, spanish, init, limit, a, b);
      var source := listings[last];
      var pool := Pool(listings, source, WINDOWS, limit);
      assert pool <= listings.Keys by { PoolIsNarrowed(listings, source, WINDOWS, limit); }
      var found := PairsWith(listings, spanish, source, pool);
      assert Key(a, b) in found <==> (a == last && Finds(listings, spanish, limit, a, b)) || (b == last && Finds(listings, spanish, limit, b, a));
    }
  }

  lemma PoolIsNarrowed(listings: Listings, source: Snapshot, windows: Windows, limit: nat)
    ensures Pool(listings, source, windows, limit) <= Candidates(listings, source, windows) <= listings.Keys
    ensures |Candidates(listings, source, windows)| <= limit ==>
              Pool(listings, source, windows, limit) == Candidates(listings, source, windows)
  {
    SubsetHasFewer(Pool(listings, source, windows, limit), Candidates(listings, source, windows));
  }

  // ---------- Nothing is lost ----------

  /** What brute force would compare: the same kind of transaction and, but for ASCII case, the same
      location text, on different portals, with at least two known structural matches. */
  predicate Comparable(first: Snapshot, second: Snapshot) {
    && first.transactionType == second.transactionType && first.portal != second.portal
    && SameNoCase(first.location, second.location) && KnownStructuralMatches(first, second) >= 2
  }

  predicate Duplicates(spanish: Normalizer, first: Snapshot, second: Snapshot) {
    Comparable(first, second) && ScoreOf(spanish, first, second).eligible
  }

  lemma DuplicatesIsSymmetric(spanish: Normalizer, first: Snapshot, second: Snapshot)
    ensures Duplicates(spanish, first, second) == Duplicates(spanish, second, first)
  {
    ScoreIsSymmetric(spanish, first, second);
    hide ScoreOf, NoCase;
  }

  /** Similar prices lie within the price window of either. */
  lemma SimilarPriceIsWithin(a: int, b: int)
    requires PricesSimilar(Some(a), Some(b)) == Yes
    ensures Within(b as real, a as real, WINDOWS.price)
  {
    SimilarPrices(a, b);
  }

  /** All areas similar to `a` lie within a window exactly when the window reaches as far as the
      tolerance of 3 square metres and as the tolerance of 5% of the greater area, a nineteenth. */
  lemma AreaWindowIsExact(a: real, window: real)
    requires a > 0.0
    ensures (forall b: real :: AreasSimilar(Some(a), Some(b)) == Yes ==> Within(b, a, window)) <==>
              a * window >= 3.0 && 19.0 * window >= 1.0
  {
    var reach := a * window;
    assert forall b: real :: Within(b, a, window) <==> a - reach <= b <= a + reach;
    assert 19.0 * window >= 1.0 <==> 19.0 * reach >= a by { ScaleBoth(19.0 * window, 1.0, a); }
    if reach >= 3.0 && 19.0 * reach >= a {
      forall b: real | AreasSimilar(Some(a), Some(b)) == Yes ensures Within(b, a, window) {
        SimilarAreas(a, b);
      }
    } else {
      var b := if reach < 3.0 then a + 3.0 else 20.0 * a / 19.0;
      SimilarAreas(a, b);
      assert AreasSimilar(Some(a), Some(b)) == Yes && !Within(b, a, window);
    }
  }

  lemma ScaleBoth(x: real, y: real, a: real)
    requires a > 0.0
    ensures x >= y <==> x * a >= y * a
  {
  }

  /** With the window of 15%, that is exactly from 20 square metres on. */
  lemma DefaultAreaWindowIsExact(a: real)
    requires a > 0.0
    ensures (forall b: real :: AreasSimilar(Some(a), Some(b)) == Yes ==> Within(b, a, WINDOWS.area)) <==> a >= 20.0
  {
    AreaWindowIsExact(a, WINDOWS.area);
  }

  predicate WideEnough(source: Snapshot) { source.area.None? || source.area.value >= 20.0 }

  predicate AreaInWindow(source: Snapshot, row: Snapshot) {
    source.area.None? || row.area.None? || Within(row.area.value, source.area.value, WINDOWS.area)
  }

  lemma EligibleHasNoConflict(spanish: Normalizer, first: Snapshot, second: Snapshot)
    requires ScoreOf(spanish, first, second).eligible
    ensures SameLocation(spanish, first, second) && !PropertyTypesEqual(first.propertyType, second.propertyType).No?
    ensures !BedroomsSimilar(first.rooms, second.rooms).No?
    ensures !AreasSimilar(first.area, second.area).No? && !PricesSimilar(first.price, second.price).No?
  {
    hide TokenSet, SameLocation, PropertyTypesEqual, BedroomsSimilar, AreasSimilar, PricesSimilar, Rounded;
  }

  /** Of the comparable rows that the scorer would find eligible, the query admits exactly those whose
      area, if both are known, lies in the window: all of them when the source is wide enough. */
  lemma EligibleIsNarrowed(spanish: Normalizer, source: Snapshot, row: Snapshot)
    requires row.id != source.id && Duplicates(spanish, source, row)
    ensures Narrowed(source, row, WINDOWS) <==> AreaInWindow(source, row)
    ensures WideEnough(source) ==> AreaInWindow(source, row)
  {
    EligibleHasNoConflict(spanish, source, row);
    if source.price.Some? && row.price.Some? { SimilarPriceIsWithin(source.price.value, row.price.value); }
    if WideEnough(source) && source.area.Some? && row.area.Some? { DefaultAreaWindowIsExact(source.area.value); }
    hide ScoreOf, NoCase, Within, AreasSimilar, PricesSimilar, SameLocation;
  }

  /** A source whose pool is not cut off finds exactly the comparable and eligible rows in its area
      window, and that is all comparable and eligible rows when it is wide enough. */
  lemma NarrowingIsExact(listings: Listings, spanish: Normalizer, limit: nat, source: nat, id: nat)
    requires Checked(listings) && spanish("") == [] && source in listings && id in listings && id != source
    requires |Candidates(listings, listings[source], WINDOWS)| <= limit
    ensures Finds(listings, spanish, limit, source, id) && ScoreOf(spanish, listings[source], listings[id]).eligible <==>
              Duplicates(spanish, listings[source], listings[id]) && AreaInWindow(listings[source], listings[id])
    ensures WideEnough(listings[source]) && Duplicates(spanish, listings[source], listings[id]) ==>
              AreaInWindow(listings[source], listings[id])
  {
    var first, second := listings[source], listings[id];
    PoolIsNarrowed(listings, first, WINDOWS, limit);
    if Duplicates(spanish, first, second) {
      EligibleIsNarrowed(spanish, first, second);
      EligibleHasNoConflict(spanish, first, second);
      assert first.location.value != "";
    }
    hide ScoreOf, NoCase, Within, Pool;
  }

  /** A source reaches a row: its pool is searched, and the area of the row, if both are known, lies
      in its window. */
  predicate ReachedFrom(listings: Listings, sources: seq<nat>, source: nat, id: nat)
    requires source in listings && id in listings
  {
    source in sources && AreaInWindow(listings[source], listings[id])
  }

  predicate Uncut(listings: Listings, sources: seq<nat>, limit: nat, source: nat)
    requires source in listings
  {
    source in sources ==> |Candidates(listings, listings[source], WINDOWS)| <= limit
  }

  /** A pair is generated and eligible exactly when comparing every source with every listing finds
      it and one of the two is a source that reaches the other. It depends on these two alone: the
      pool of either, if it is a source, must not be cut off. */
  lemma GeneratedAreAllDuplicates(listings: Listings, spanish: Normalizer, sources: seq<nat>, limit: nat, a: nat, b: nat)
    requires Checked(listings) && spanish("") == [] && a in listings && b in listings && a != b
    requires forall i :: 0 <= i < |sources| ==> sources[i] in listings
    requires Uncut(listings, sources, limit, a) && Uncut(listings, sources, limit, b)
    ensures var pairs := Collected(listings, spanish, sources, limit);
            Key(a, b) in pairs && ScoreOf(spanish, pairs[Key(a, b)].first, pairs[Key(a, b)].second).eligible <==>
              Duplicates(spanish, listings[a], listings[b]) &&
              (ReachedFrom(listings, sources, a, b) || ReachedFrom(listings, sources, b, a))
  {
    CollectedWhenFound(listings, spanish, sources, limit, a, b);
    ScoreIsSymmetric(spanish, listings[a], listings[b]);
    DuplicatesIsSymmetric(spanish, listings[a], listings[b]);
    if a in sources { NarrowingIsExact(listings, spanish, limit, a, b); }
    if b in sources { NarrowingIsExact(listings, spanish, limit, b, a); }
    hide ScoreOf, Duplicates, Finds, Collected, Key, AreaInWindow, Candidates;
  }

  /** From 20 square metres on, or with an unknown area, a source reaches every duplicate. */
  lemma WideSourceReachesItsDuplicates(listings: Listings, spanish: Normalizer, sources: seq<nat>, a: nat, b: nat)
    requires a in listings && b in listings && listings[a].id != listings[b].id
    requires a in sources && WideEnough(listings[a]) && Duplicates(spanish, listings[a], listings[b])
    ensures ReachedFrom(listings, sources, a, b)
  {
    EligibleIsNarrowed(spanish, listings[a], listings[b]);
    hide Duplicates, Narrowed, AreaInWindow;
  }

  /** When the pool is cut off, only rows with lesser ids than all those kept are lost. */
  lemma CutOffLosesTheOldest(listings: Listings, source: Snapshot, windows: Windows, limit: nat, lost: nat, kept: nat)
    requires lost in Candidates(listings, source, windows) - Pool(listings, source, windows, limit)
    requires kept in Pool(listings, source, windows, limit)
    ensures lost < kept && |Pool(listings, source, windows, limit)| == limit
  {
    var ids := Candidates(listings, source, windows);
    var key: map<nat, int> := map id | id in ids :: 0;
    var beyond := BeyondLimit(ids, key, limit);
    assert lost in beyond && kept in ids - beyond;
    assert Before(key, lost, kept);
  }

  /** Without both addresses, the structural matches are no extra condition: the scorer wants all four. */
  lemma AddresslessMatchesAreStructural(spanish: Normalizer, first: Snapshot, second: Snapshot)
    requires !AddressesKnown(spanish, first, second) && ScoreOf(spanish, first, second).eligible
    ensures KnownStructuralMatches(first, second) == 4
  {
    AddresslessEligibility(spanish, first, second);
    hide ScoreOf, SameLocation, NeighbourhoodsEqual, TitleSimilarity, Dice, TitleTokens, AddressesKnown, SameAddress, RelativeDifference;
  }
}
