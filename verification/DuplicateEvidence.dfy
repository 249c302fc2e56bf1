/** What the scorer's evidence means for the columns of the two listings. */
module DuplicateEvidence {
  import opened Wrappers
  import opened DuplicateMatching
  import opened DuplicateScoring

  // ---------- Text ----------

  /** Locations match when both are known and have the same tokens, and at least one. */
  lemma LocationSpelledOut(spanish: Normalizer, a: Snapshot, b: Snapshot)
    ensures Compare(spanish, a, b).location <==>
              a.location.Some? && b.location.Some? &&
              var one, other := (set t | t in spanish(a.location.value)), (set t | t in spanish(b.location.value));
              one != {} && one == other
  {
    OptionalTokens(spanish, a.location);
    OptionalTokens(spanish, b.location);
  }

  /** Neighbourhoods agree or differ only when both are known and have tokens. */
  lemma NeighbourhoodSpelledOut(spanish: Normalizer, a: Snapshot, b: Snapshot)
    ensures var f := Compare(spanish, a, b);
            if a.neighbourhood.None? || b.neighbourhood.None? then f.neighbourhood == NotKnown
            else
              var one, other := (set t | t in spanish(a.neighbourhood.value)), (set t | t in spanish(b.neighbourhood.value));
              if one == {} || other == {} then f.neighbourhood == NotKnown
              else if one == other then f.neighbourhood == Yes
              else f.neighbourhood == No
  {
    OptionalTokens(spanish, a.neighbourhood);
    OptionalTokens(spanish, b.neighbourhood);
  }

  lemma OptionalTokens(spanish: Normalizer, value: Option<string>)
    ensures value.None? ==> TokenSet(spanish, value) == {}
    ensures value.Some? ==> TokenSet(spanish, value) == set t | t in spanish(value.value)
  {
  }

  /** The tokens of a street without the six words that carry nothing. */
  function StreetWords(spanish: Normalizer, street: string): set<string> {
    (set t | t in spanish(street)) - {"de", "del", "el", "la", "las", "los"}
  }

  /** Both listings name a street and a number that mean something. */
  predicate AddressesGiven(spanish: Normalizer, a: Snapshot, b: Snapshot) {
    && a.street.Some? && b.street.Some? && a.streetNumber.Some? && b.streetNumber.Some?
    && StreetWords(spanish, a.street.value) != {} && StreetWords(spanish, b.street.value) != {}
    && spanish(a.streetNumber.value) != [] && spanish(b.streetNumber.value) != []
  }

  /** An address matches when both are given and the words of the streets and the tokens of the numbers
      are the same; it conflicts when both are given and either differs. */
  lemma AddressSpelledOut(spanish: Normalizer, a: Snapshot, b: Snapshot)
    ensures var f := Compare(spanish, a, b);
            && (f.address || f.addressConflict <==> AddressesGiven(spanish, a, b))
            && (AddressesGiven(spanish, a, b) ==>
                  && (f.address <==> StreetWords(spanish, a.street.value) == StreetWords(spanish, b.street.value) &&
                                     spanish(a.streetNumber.value) == spanish(b.streetNumber.value))
                  && f.addressConflict == !f.address)
  {
    OptionalTokens(spanish, a.street);
    OptionalTokens(spanish, b.street);
    hide TokenSet;
  }

  /** Two flats of one street with different numbers are never eligible, nor are two of different streets. */
  lemma DifferentAddressesExclude(spanish: Normalizer, a: Snapshot, b: Snapshot)
    requires AddressesGiven(spanish, a, b)
    requires spanish(a.streetNumber.value) != spanish(b.streetNumber.value) ||
             StreetWords(spanish, a.street.value) != StreetWords(spanish, b.street.value)
    ensures !ScoreOf(spanish, a, b).eligible
  {
    AddressSpelledOut(spanish, a, b);
    hide Compare, Rounded;
  }

  /** High confidence means that both addresses are given and are the same, street and number. */
  lemma HighMeansSameStreetAndNumber(spanish: Normalizer, a: Snapshot, b: Snapshot)
    requires ScoreOf(spanish, a, b).confidence == High
    ensures AddressesGiven(spanish, a, b)
    ensures StreetWords(spanish, a.street.value) == StreetWords(spanish, b.street.value)
    ensures spanish(a.streetNumber.value) == spanish(b.streetNumber.value)
  {
    AddressSpelledOut(spanish, a, b);
    ComparisonIsSound(spanish, a, b);
    var f := Compare(spanish, a, b);
    ScoreIsAFraction(f);
    ThresholdReached(Total(f));
    hide Compare, Rounded, AddressesGiven, StreetWords;
  }

  // ---------- Titles ----------

  /** The tokens of a title without the sixteen words that carry nothing. */
  function TitleWords(spanish: Normalizer, title: string): set<string> {
    (set t | t in spanish(title))
    - {"a", "al", "con", "de", "del", "el", "en", "la", "las", "los", "para", "por", "se", "un", "una", "y"}
  }

  /** `x` is twice the shared words over the shared and the unshared ones, the shared counted twice. */
  predicate IsDice(x: real, one: set<string>, other: set<string>) {
    x * (2 * |one * other| + |one - other| + |other - one|) as real == 2.0 * |one * other| as real
  }

  /** Similarity is known when both titles have words. */
  lemma TitlesSpelledOut(spanish: Normalizer, a: Snapshot, b: Snapshot)
    ensures var f := Compare(spanish, a, b);
            var one, other := TitleWords(spanish, a.title), TitleWords(spanish, b.title);
            && (f.similarity.None? <==> one == {} || other == {})
            && (f.similarity.Some? ==> IsDice(f.similarity.value, one, other))
            && (f.longTitles <==> |one| >= 3 && |other| >= 3)
  {
    hide IsDice, Dice, TokenSet, SameLocation, AddressesKnown, SameAddress, NeighbourhoodsEqual, PropertyTypesEqual,
         BedroomsSimilar, AreasSimilar, PricesSimilar, Difference, AsReal;
    OptionalTokens(spanish, Some(a.title));
    OptionalTokens(spanish, Some(b.title));
    var one, other := TitleWords(spanish, a.title), TitleWords(spanish, b.title);
    assert TitleTokens(spanish, a.title) == one && TitleTokens(spanish, b.title) == other;
    if one != {} && other != {} { DiceSpelledOut(one, other); }
  }

  lemma DiceSpelledOut(one: set<string>, other: set<string>)
    requires one != {} && other != {}
    ensures IsDice(Dice(one, other), one, other)
  {
    assert one == one * other + (one - other) && other == one * other + (other - one);
    assert |one| == |one * other| + |one - other| && |other| == |one * other| + |other - one|;
  }

  // ---------- Numbers ----------

  /** Known property types decide; rooms, areas and prices decide when both are known: rooms must be
      equal, areas within 3 square metres or 5% of the greater, prices within 3% of the greater, and a
      negative number, or an area that is not positive, never matches. */
  lemma StructureSpelledOut(spanish: Normalizer, a: Snapshot, b: Snapshot)
    ensures var f := Compare(spanish, a, b);
            && (f.propertyType == NotKnown <==> a.propertyType == UnknownType || b.propertyType == UnknownType)
            && (f.propertyType == Yes <==> a.propertyType == b.propertyType && a.propertyType != UnknownType)
            && (f.bedrooms == NotKnown <==> a.rooms == None || b.rooms == None)
            && (f.bedrooms == Yes <==> a.rooms.Some? && a.rooms == b.rooms && a.rooms.value >= 0)
            && (f.area == NotKnown <==> a.area == None || b.area == None)
            && (f.area == Yes <==>
                  && a.area.Some? && b.area.Some? && a.area.value > 0.0 && b.area.value > 0.0
                  && (|| -3.0 <= a.area.value - b.area.value <= 3.0
                      || (0.95 * a.area.value <= b.area.value && 0.95 * b.area.value <= a.area.value)))
            && (f.price == NotKnown <==> a.price == None || b.price == None)
            && (f.price == Yes <==>
                  && a.price.Some? && b.price.Some? && a.price.value >= 0 && b.price.value >= 0
                  && 97 * a.price.value <= 100 * b.price.value && 97 * b.price.value <= 100 * a.price.value)
  {
    if a.area.Some? && b.area.Some? { SimilarAreas(a.area.value, b.area.value); }
    if a.price.Some? && b.price.Some? { SimilarPrices(a.price.value, b.price.value); }
    hide TokenSet, AreasSimilar, PricesSimilar;
  }

  predicate IsRelativeDifference(d: real, x: real, y: real) { d * (if x < y then y else x) == if x < y then y - x else x - y }

  /** The differences shown with areas and prices are those of the greater. */
  lemma DifferencesSpelledOut(spanish: Normalizer, a: Snapshot, b: Snapshot)
    ensures var f := Compare(spanish, a, b);
            && (f.areaDifference.Some? <==> a.area.Some? && b.area.Some?)
            && (f.priceDifference.Some? <==> a.price.Some? && b.price.Some?)
            && (f.areaDifference.Some? && a.area.value > 0.0 && b.area.value > 0.0 ==>
                  IsRelativeDifference(f.areaDifference.value, a.area.value, b.area.value))
            && (f.priceDifference.Some? && a.price.value > 0 && b.price.value > 0 ==>
                  IsRelativeDifference(f.priceDifference.value, a.price.value as real, b.price.value as real))
  {
    hide IsRelativeDifference, RelativeDifference, TokenSet, TitleTokens, TitleSimilarity, SameLocation, AddressesKnown, SameAddress,
         NeighbourhoodsEqual, PropertyTypesEqual, BedroomsSimilar, AreasSimilar, PricesSimilar;
    if a.area.Some? && b.area.Some? && a.area.value > 0.0 && b.area.value > 0.0 { DifferenceSpelledOut(a.area.value, b.area.value); }
    if a.price.Some? && b.price.Some? && a.price.value > 0 && b.price.value > 0 {
      DifferenceSpelledOut(a.price.value as real, b.price.value as real);
    }
  }

  lemma DifferenceSpelledOut(x: real, y: real)
    requires x > 0.0 && y > 0.0
    ensures IsRelativeDifference(RelativeDifference(x, y), x, y)
  {
  }

  // ---------- The verdict ----------

  /** Without both addresses, in terms of the columns. */
  lemma AddresslessVerdict(spanish: Normalizer, a: Snapshot, b: Snapshot)
    requires !AddressesGiven(spanish, a, b)
    ensures ScoreOf(spanish, a, b).eligible <==>
              && a.location.Some? && b.location.Some? && a.neighbourhood.Some? && b.neighbourhood.Some?
              && (set t | t in spanish(a.location.value)) == (set t | t in spanish(b.location.value)) != {}
              && (set t | t in spanish(a.neighbourhood.value)) == (set t | t in spanish(b.neighbourhood.value)) != {}
              && a.propertyType == b.propertyType != UnknownType
              && a.rooms.Some? && a.rooms == b.rooms && a.rooms.value >= 0
              && a.area.Some? && b.area.Some? && a.area.value > 0.0 && b.area.value > 0.0
              && (|| -3.0 <= a.area.value - b.area.value <= 3.0
                  || (0.95 * a.area.value <= b.area.value && 0.95 * b.area.value <= a.area.value))
              && a.price.Some? && b.price.Some? && a.price.value >= 0 && b.price.value >= 0
              && 97 * a.price.value <= 100 * b.price.value && 97 * b.price.value <= 100 * a.price.value
              && var one, other := TitleWords(spanish, a.title), TitleWords(spanish, b.title);
                 && |one| >= 3 && |other| >= 3
                 && |one * other| >= 2 * (|one - other| + |other - one|)
  {
    hide Compare, Judged, AddressesGiven, TitleWords, IsDice;
    AddressSpelledOut(spanish, a, b);
    LocationSpelledOut(spanish, a, b);
    NeighbourhoodSpelledOut(spanish, a, b);
    StructureSpelledOut(spanish, a, b);
    TitlesSpelledOut(spanish, a, b);
    ComparisonIsSound(spanish, a, b);
    var f := Compare(spanish, a, b);
    AddresslessFindings(f);
    if f.similarity.Some? { FourFifths(f.similarity.value, TitleWords(spanish, a.title), TitleWords(spanish, b.title)); }
  }

  lemma AddresslessFindings(f: Findings)
    requires f.Sound() && !f.address && !f.addressConflict
    ensures Judged(f).eligible <==>
              && f.location && f.neighbourhood == Yes && f.propertyType == Yes && f.bedrooms == Yes && f.area == Yes && f.price == Yes
              && f.similarity.Some? && f.similarity.value >= 0.8 && f.longTitles
  {
    ScoreIsAFraction(f);
    ThresholdReached(Total(f));
    hide Rounded;
  }

  lemma FourFifths(x: real, one: set<string>, other: set<string>)
    requires IsDice(x, one, other) && one != {}
    ensures x >= 0.8 <==> |one * other| >= 2 * (|one - other| + |other - one|)
  {
    DiceProduct(x, one, other);
    hide IsDice;
    var all := 2 * |one * other| + |one - other| + |other - one|;
    assert all > 0 by { assert one == one * other + (one - other); }
    FourFifthsOfAll(x, |one * other|, all);
    hide Times;
  }

  lemma DiceProduct(x: real, one: set<string>, other: set<string>)
    requires IsDice(x, one, other)
    ensures Times(x, 2 * |one * other| + |one - other| + |other - one|) == 2.0 * |one * other| as real
  {
  }

  function Times(x: real, all: int): real { x * all as real }

  lemma FourFifthsOfAll(x: real, shared: int, all: int)
    requires all > 0 && Times(x, all) == 2.0 * shared as real
    ensures x >= 0.8 <==> 2.0 * shared as real >= 0.8 * all as real
  {
    AtLeastTimes(x, 0.8, all as real);
  }

  lemma AtLeastTimes(x: real, y: real, all: real)
    requires all > 0.0
    ensures x >= y <==> x * all >= y * all
  {
    assert (x - y) * all == x * all - y * all;
    if x >= y { assert (x - y) * all >= 0.0; } else { assert (x - y) * all < 0.0; }
  }

  /** With one exact address, in terms of the findings that the lemmas above spell out: high is what
      reaches 0.85 with the weights in twentieths. */
  lemma HighSpelledOut(f: Findings)
    requires f.Sound() && f.address
    ensures Judged(f).confidence == High <==>
              && Judged(f).eligible
              && 0.40 + 0.05 * Points(f) as real + (if f.similarity.Some? then 0.10 * f.similarity.value else 0.0) >= 0.84995
  {
    ScoreIsAFraction(f);
    ThresholdReached(Total(f));
    hide Rounded;
  }

  // ---------- The reasons ----------

  /** The reasons, one by one: what was compared, the verdict, and the weight if it matched. */
  lemma ReasonsSpelledOut(f: Findings)
    ensures var r := Judged(f).reasons;
            && |r| >= 8
            && r[0] == Evidence(Location, if f.location then Yes else No, if f.location then 0.10 else 0.0, NoDetail)
            && r[1] == Evidence(ExactAddress, if f.address then Yes else No, if f.address then 0.30 else 0.0, NoDetail)
            && r[2] == Evidence(Neighbourhood, f.neighbourhood, if f.neighbourhood == Yes then 0.05 else 0.0, NoDetail)
            && r[3] == Evidence(Property, f.propertyType, if f.propertyType == Yes then 0.05 else 0.0, NoDetail)
            && r[4] == Evidence(Bedrooms, f.bedrooms, if f.bedrooms == Yes then 0.10 else 0.0, NoDetail)
            && r[5].Evidence? && r[5].code == Area && r[5].matched == f.area && r[5].contribution == (if f.area == Yes then 0.15 else 0.0)
            && r[6].Evidence? && r[6].code == Price && r[6].matched == f.price && r[6].contribution == (if f.price == Yes then 0.15 else 0.0)
            && r[7].Evidence? && r[7].code == Title && (r[7].matched == if f.Distinctive() then Yes else No)
  {
    hide Rounded, Nearest, Conflicts, PassesGate, Total;
    var evidence := EvidenceReasons(f);
    assert |evidence| == 8 && Judged(f).reasons[..8] == evidence;
    assert forall i :: 0 <= i < 8 ==> Judged(f).reasons[i] == evidence[i];
    hide Judged;
  }

  /** After the evidence come the conflicts, if any, each named exactly when it occurred, and the gate, if
      it was not passed. */
  lemma ConflictsAndGateSpelledOut(f: Findings)
    ensures var r := Judged(f).reasons;
            var conflict := !f.location || f.addressConflict || f.propertyType == No || f.bedrooms == No || f.area == No || f.price == No;
            var gate := f.address || (f.neighbourhood == Yes && f.Distinctive() && f.bedrooms == Yes && f.area == Yes && f.price == Yes);
            && |r| == 8 + (if conflict then 1 else 0) + (if gate then 0 else 1)
            && (conflict ==> r[8] == HardConflict(Conflicts(f)))
            && (!gate ==> r[|r| - 1] == IdentityGate)
  {
    ConflictsSpelledOut(f);
    assert |EvidenceReasons(f)| == 8;
    hide EvidenceReasons, Conflicts, Rounded, Total;
  }

  lemma ConflictsSpelledOut(f: Findings)
    ensures Location in Conflicts(f) <==> !f.location
    ensures ExactAddress in Conflicts(f) <==> f.addressConflict
    ensures Property in Conflicts(f) <==> f.propertyType == No
    ensures Bedrooms in Conflicts(f) <==> f.bedrooms == No
    ensures Area in Conflicts(f) <==> f.area == No
    ensures Price in Conflicts(f) <==> f.price == No
    ensures Neighbourhood !in Conflicts(f) && Title !in Conflicts(f)
    ensures Conflicts(f) == [] <==>
              f.location && !f.addressConflict && f.propertyType != No && f.bedrooms != No && f.area != No && f.price != No
  {
    forall code ensures code in Conflicts(f) <==>
              code in Flagged(!f.location, Location) || code in Flagged(f.addressConflict, ExactAddress)
              || code in Flagged(f.propertyType.No?, Property) || code in Flagged(f.bedrooms.No?, Bedrooms)
              || code in Flagged(f.area.No?, Area) || code in Flagged(f.price.No?, Price)
    {
      hide Flagged;
    }
    assert |Conflicts(f)| == 0 <==> Conflicts(f) == [];
    hide Conflicts;
  }

  /** The details: the shown difference is the nearest tenth of a percent, the shown similarity the
      nearest ten-thousandth. */
  lemma DetailsSpelledOut(f: Findings)
    ensures var r := Judged(f).reasons;
            && |r| >= 8 && r[5].Evidence? && r[6].Evidence? && r[7].Evidence?
            && (f.areaDifference.None? ==> r[5].detail == NoDetail)
            && (f.areaDifference.Some? ==> r[5].detail.PerMille? && -0.5 <= r[5].detail.difference as real - 1000.0 * f.areaDifference.value <= 0.5)
            && (f.priceDifference.None? ==> r[6].detail == NoDetail)
            && (f.priceDifference.Some? ==> r[6].detail.PerMille? && -0.5 <= r[6].detail.difference as real - 1000.0 * f.priceDifference.value <= 0.5)
            && r[7].detail.Similarity? && (r[7].detail.value.Some? <==> f.similarity.Some?)
            && (f.similarity.Some? ==> -0.00005 <= r[7].detail.value.value - f.similarity.value <= 0.00005)
  {
    if f.areaDifference.Some? { NearestIsClose(f.areaDifference.value * 1000.0); }
    if f.priceDifference.Some? { NearestIsClose(f.priceDifference.value * 1000.0); }
    if f.similarity.Some? { RoundedIsNearest(f.similarity.value); }
    hide Rounded, Nearest, Conflicts, PassesGate, Total;
    var evidence := EvidenceReasons(f);
    assert |evidence| == 8 && forall i :: 0 <= i < 8 ==> Judged(f).reasons[i] == evidence[i];
    hide Judged;
  }

  /** Rounding takes the nearest integer, and the even one of two that are equally near. */
  lemma NearestIsClose(x: real)
    ensures -0.5 <= Nearest(x) as real - x <= 0.5
    ensures Nearest(x) as real - x == 0.5 || Nearest(x) as real - x == -0.5 ==> Nearest(x) % 2 == 0
  {
  }

  /** And so a score is a whole number of ten-thousandths, the nearest, ties to even. */
  lemma RoundedIsTenThousandths(x: real)
    ensures Rounded(x) * 10000.0 == Nearest(x * 10000.0) as real
  {
  }
}
