/** The weighted score of a pair of listings and the gates that make it eligible. */
module DuplicateScoring {
  import opened Wrappers
  import opened Domain
  import opened DuplicateMatching

  datatype TransactionType = Buy | Rent

  datatype PropertyType =
    Apartment | House | Land | Commercial | Office | Garage | Storage | Building | OtherType | UnknownType

  datatype Snapshot = Snapshot(
    id: nat, portal: Portal, transactionType: TransactionType, propertyType: PropertyType, title: string,
    price: Option<int>, area: Option<real>, rooms: Option<int>,
    location: Option<string>, neighbourhood: Option<string>, street: Option<string>, streetNumber: Option<string>)

  // ---------- Evidence ----------

  const STREET_GLUE: set<string> := {"de", "del", "el", "la", "las", "los"}

  function StreetTokens(spanish: Normalizer, s: Snapshot): set<string> { TokenSet(spanish, s.street) - STREET_GLUE }

  /** Both listings name a street and a number, so the addresses can be compared. */
  predicate AddressesKnown(spanish: Normalizer, first: Snapshot, second: Snapshot) {
    && StreetTokens(spanish, first) != {} && StreetTokens(spanish, second) != {}
    && Tokens(spanish, first.streetNumber) != [] && Tokens(spanish, second.streetNumber) != []
  }

  predicate SameAddress(spanish: Normalizer, first: Snapshot, second: Snapshot) {
    && StreetTokens(spanish, first) == StreetTokens(spanish, second)
    && Tokens(spanish, first.streetNumber) == Tokens(spanish, second.streetNumber)
  }

  predicate SameLocation(spanish: Normalizer, first: Snapshot, second: Snapshot) {
    var tokens := TokenSet(spanish, first.location);
    tokens != {} && tokens == TokenSet(spanish, second.location)
  }

  function NeighbourhoodsEqual(spanish: Normalizer, first: Snapshot, second: Snapshot): Verdict {
    var one, other := TokenSet(spanish, first.neighbourhood), TokenSet(spanish, second.neighbourhood);
    if one == {} || other == {} then NotKnown else Verdicted(one == other)
  }

  function PropertyTypesEqual(first: PropertyType, second: PropertyType): Verdict {
    if first.UnknownType? || second.UnknownType? then NotKnown else Verdicted(first == second)
  }

  /** Everything the scorer finds out about a pair. */
  datatype Findings = Findings(
    location: bool, address: bool, addressConflict: bool, neighbourhood: Verdict, propertyType: Verdict,
    bedrooms: Verdict, area: Verdict, price: Verdict, similarity: Option<real>, longTitles: bool,
    areaDifference: Option<real>, priceDifference: Option<real>)
  {
    predicate Distinctive() { similarity.Some? && similarity.value >= 0.8 && longTitles }

    predicate Sound() {
      && (similarity.Some? ==> 0.0 <= similarity.value <= 1.0)
      && !(address && addressConflict)
    }
  }

  /** The relative difference of two known values, for the reader of a reason. */
  function Difference(first: Option<real>, second: Option<real>): Option<real> {
    if first.None? || second.None? then None else Some(RelativeDifference(first.value, second.value))
  }

  function AsReal(value: Option<int>): Option<real> {
    match value case None => None case Some(v) => Some(v as real)
  }

  function Compare(spanish: Normalizer, first: Snapshot, second: Snapshot): Findings {
    var known, same := AddressesKnown(spanish, first, second), SameAddress(spanish, first, second);
    var one, other := TitleTokens(spanish, first.title), TitleTokens(spanish, second.title);
    Findings(SameLocation(spanish, first, second), known && same, known && !same,
             NeighbourhoodsEqual(spanish, first, second), PropertyTypesEqual(first.propertyType, second.propertyType),
             BedroomsSimilar(first.rooms, second.rooms), AreasSimilar(first.area, second.area),
             PricesSimilar(first.price, second.price), TitleSimilarity(one, other), |one| >= 3 && |other| >= 3,
             Difference(first.area, second.area), Difference(AsReal(first.price), AsReal(second.price)))
  }

  // ---------- The score ----------

  datatype Code = Location | ExactAddress | Neighbourhood | Property | Bedrooms | Area | Price | Title

  /** What a reason shows besides its contribution: a difference in tenths of a percent, or the
      similarity of the titles. */
  datatype Detail = NoDetail | PerMille(difference: int) | Similarity(value: Option<real>)

  datatype Reason =
    | Evidence(code: Code, matched: Verdict, contribution: real, detail: Detail)
    | HardConflict(details: seq<Code>)
    | IdentityGate

  datatype Confidence = High | Review

  datatype Score = Score(score: real, eligible: bool, confidence: Confidence, reasons: seq<Reason>)

  const THRESHOLD: real := 0.68
  const HIGH: real := 0.85

  /** `round(x, 4)`: the nearest multiple of 0.0001, ties to the even one. */
  function Rounded(x: real): real { Nearest(x * 10000.0) as real / 10000.0 }

  function Nearest(x: real): int {
    var low := x.Floor;
    var rest := x - low as real;
    if rest > 0.5 || (rest == 0.5 && low % 2 == 1) then low + 1 else low
  }

  function Weighed(matched: Verdict, weight: real): real { if matched.Yes? then weight else 0.0 }

  function Recorded(code: Code, matched: Verdict, weight: real, difference: Option<real>): Reason {
    Evidence(code, matched, Weighed(matched, weight),
             match difference case None => NoDetail case Some(d) => PerMille(Nearest(d * 1000.0)))
  }

  function TitleReason(distinctive: bool, part: real, similarity: Option<real>): Reason {
    Evidence(Title, Verdicted(distinctive), Rounded(part),
             Similarity(match similarity case None => None case Some(x) => Some(Rounded(x))))
  }

  function TitlePart(f: Findings): real { if f.similarity.None? then 0.0 else 0.10 * f.similarity.value }

  function Total(f: Findings): real {
    Weighed(Verdicted(f.location), 0.10) + Weighed(Verdicted(f.address), 0.30) + Weighed(f.neighbourhood, 0.05)
    + Weighed(f.propertyType, 0.05) + Weighed(f.bedrooms, 0.10) + Weighed(f.area, 0.15) + Weighed(f.price, 0.15)
    + TitlePart(f)
  }

  function Flagged(flag: bool, code: Code): seq<Code> { if flag then [code] else [] }

  function Conflicts(f: Findings): seq<Code> {
    Flagged(!f.location, Location) + Flagged(f.addressConflict, ExactAddress) + Flagged(f.propertyType.No?, Property)
    + Flagged(f.bedrooms.No?, Bedrooms) + Flagged(f.area.No?, Area) + Flagged(f.price.No?, Price)
  }

  predicate PassesGate(f: Findings) {
    f.address || (f.neighbourhood.Yes? && f.Distinctive() && f.bedrooms.Yes? && f.area.Yes? && f.price.Yes?)
  }

  function EvidenceReasons(f: Findings): seq<Reason> {
    [Recorded(Location, Verdicted(f.location), 0.10, None)] + [Recorded(ExactAddress, Verdicted(f.address), 0.30, None)]
    + [Recorded(Neighbourhood, f.neighbourhood, 0.05, None)] + [Recorded(Property, f.propertyType, 0.05, None)]
    + [Recorded(Bedrooms, f.bedrooms, 0.10, None)] + [Recorded(Area, f.area, 0.15, f.areaDifference)]
    + [Recorded(Price, f.price, 0.15, f.priceDifference)]
    + [TitleReason(f.Distinctive(), TitlePart(f), f.similarity)]
  }

  function Judged(f: Findings): Score {
    var conflicts := Conflicts(f);
    var score := Rounded(if Total(f) < 1.0 then Total(f) else 1.0);
    var eligible := conflicts == [] && PassesGate(f) && score >= THRESHOLD;
    Score(score, eligible, if eligible && score >= HIGH then High else Review,
          EvidenceReasons(f) + (if conflicts == [] then [] else [HardConflict(conflicts)])
          + (if PassesGate(f) then [] else [IdentityGate]))
  }

  function ScoreOf(spanish: Normalizer, first: Snapshot, second: Snapshot): Score {
    Judged(Compare(spanish, first, second))
  }

  /** The scorer: it adds up contributions and appends reasons as it goes. */
  method ScorePair(spanish: Normalizer, first: Snapshot, second: Snapshot) returns (result: Score)
    ensures result == ScoreOf(spanish, first, second)
  {
    hide Rounded, Recorded, TitleReason, Difference, AsReal, Weighed, Verdicted, Flagged, TokenSet, TitleTokens, TitleSimilarity, AreasSimilar, PricesSimilar,
         BedroomsSimilar, AddressesKnown, SameAddress, SameLocation, NeighbourhoodsEqual, PropertyTypesEqual;
    var f := Compare(spanish, first, second);
    var reasons: seq<Reason> := [];
    var hardConflicts: seq<Code> := [];
    var total := 0.0;

    var locationMatch := SameLocation(spanish, first, second);
    total := total + Weighed(Verdicted(locationMatch), 0.10);
    reasons := reasons + [Recorded(Location, Verdicted(locationMatch), 0.10, None)];
    hardConflicts := hardConflicts + Flagged(!locationMatch, Location);

    var addressMatch, addressConflict := false, false;
    if AddressesKnown(spanish, first, second) {
      addressMatch := SameAddress(spanish, first, second);
      addressConflict := !addressMatch;
    }
    assert reasons == [Recorded(Location, Verdicted(f.location), 0.10, None)] && total == Weighed(Verdicted(f.location), 0.10);
    assert hardConflicts == Flagged(!f.location, Location) && addressMatch == f.address && addressConflict == f.addressConflict;
    total := total + Weighed(Verdicted(addressMatch), 0.30);
    reasons := reasons + [Recorded(ExactAddress, Verdicted(addressMatch), 0.30, None)];
    hardConflicts := hardConflicts + Flagged(addressConflict, ExactAddress);

    var neighbourhoodMatch := NeighbourhoodsEqual(spanish, first, second);
    total := total + Weighed(neighbourhoodMatch, 0.05);
    reasons := reasons + [Recorded(Neighbourhood, neighbourhoodMatch, 0.05, None)];

    var propertyMatch := PropertyTypesEqual(first.propertyType, second.propertyType);
    total := total + Weighed(propertyMatch, 0.05);
    reasons := reasons + [Recorded(Property, propertyMatch, 0.05, None)];
    hardConflicts := hardConflicts + Flagged(propertyMatch.No?, Property);

    var roomMatch := BedroomsSimilar(first.rooms, second.rooms);
    total := total + Weighed(roomMatch, 0.10);
    reasons := reasons + [Recorded(Bedrooms, roomMatch, 0.10, None)];
    hardConflicts := hardConflicts + Flagged(roomMatch.No?, Bedrooms);

    var areaMatch := AreasSimilar(first.area, second.area);
    total := total + Weighed(areaMatch, 0.15);
    reasons := reasons + [Recorded(Area, areaMatch, 0.15, Difference(first.area, second.area))];
    hardConflicts := hardConflicts + Flagged(areaMatch.No?, Area);

    var priceMatch := PricesSimilar(first.price, second.price);
    total := total + Weighed(priceMatch, 0.15);
    reasons := reasons + [Recorded(Price, priceMatch, 0.15, Difference(AsReal(first.price), AsReal(second.price)))];
    hardConflicts := hardConflicts + Flagged(priceMatch.No?, Price);
    assert hardConflicts == Conflicts(f);

    var one, other := TitleTokens(spanish, first.title), TitleTokens(spanish, second.title);
    var similarity := TitleSimilarity(one, other);
    var distinctive := similarity.Some? && similarity.value >= 0.8 && |one| >= 3 && |other| >= 3;
    var titlePart := if similarity.None? then 0.0 else 0.10 * similarity.value;
    total := total + titlePart;
    reasons := reasons + [TitleReason(distinctive, titlePart, similarity)];
    assert total == Total(f) && reasons == EvidenceReasons(f);

    var complete := roomMatch.Yes? && areaMatch.Yes? && priceMatch.Yes?;
    var identityGate := addressMatch || (neighbourhoodMatch.Yes? && distinctive && complete);
    var finalScore := Rounded(if total < 1.0 then total else 1.0);
    var eligible := hardConflicts == [] && identityGate && finalScore >= THRESHOLD;
    assert identityGate == PassesGate(f);
    hide Total, EvidenceReasons, Conflicts, PassesGate, Compare;
    reasons := reasons + if hardConflicts == [] then [] else [HardConflict(hardConflicts)];
    reasons := reasons + if identityGate then [] else [IdentityGate];
    result := Score(finalScore, eligible, if eligible && finalScore >= HIGH then High else Review, reasons);
  }

  // ---------- What a score means ----------

  lemma ComparisonIsSound(spanish: Normalizer, first: Snapshot, second: Snapshot)
    ensures Compare(spanish, first, second).Sound()
  {
    var one, other := TitleTokens(spanish, first.title), TitleTokens(spanish, second.title);
    if one != {} && other != {} { DiceIsASimilarity(one, other); }
  }

  /** The order of the two listings does not matter, to the last reason. */
  lemma ScoreIsSymmetric(spanish: Normalizer, first: Snapshot, second: Snapshot)
    ensures ScoreOf(spanish, first, second) == ScoreOf(spanish, second, first)
  {
    hide TokenSet, Judged;
    var one, other := TitleTokens(spanish, first.title), TitleTokens(spanish, second.title);
    if one != {} && other != {} { DiceIsASimilarity(one, other); }
    hide Dice, TitleTokens;
    assert Difference(first.area, second.area) == Difference(second.area, first.area);
    assert Difference(AsReal(first.price), AsReal(second.price)) == Difference(AsReal(second.price), AsReal(first.price));
    assert AreasSimilar(first.area, second.area) == AreasSimilar(second.area, first.area);
    assert PricesSimilar(first.price, second.price) == PricesSimilar(second.price, first.price);
  }

  /** Rounding moves a score by at most half a ten-thousandth. */
  lemma RoundedIsNearest(x: real)
    ensures x - 0.00005 <= Rounded(x) <= x + 0.00005
  {
  }

  /** At an even number of ten-thousandths, rounding reaches it exactly from the half below. */
  lemma RoundedReaches(x: real, half: int)
    ensures Rounded(x) >= (2 * half) as real / 10000.0 <==> x * 10000.0 >= (2 * half) as real - 0.5
  {
    NearestReaches(x * 10000.0, half);
    hide Nearest;
  }

  lemma NearestReaches(x: real, half: int)
    ensures Nearest(x) >= 2 * half <==> x >= (2 * half) as real - 0.5
  {
    var low := x.Floor;
    if low < 2 * half - 1 {
      assert low <= 2 * half - 2;
    }
  }

  lemma ThresholdReached(x: real)
    ensures Rounded(x) >= THRESHOLD <==> x >= 0.67995
    ensures Rounded(x) >= HIGH <==> x >= 0.84995
  {
    RoundedReaches(x, 3400);
    RoundedReaches(x, 4250);
    hide Rounded;
  }

  /** The weights add up to one, so a score is between 0 and 1 and never cut off; it is full marks
      exactly when everything matches and the titles have the same tokens. */
  lemma ScoreIsAFraction(f: Findings)
    requires f.Sound()
    ensures 0.0 <= Total(f) <= 1.0 && Judged(f).score == Rounded(Total(f)) && 0.0 <= Judged(f).score <= 1.0
    ensures Total(f) == 1.0 <==>
              && f.location && f.address && f.neighbourhood.Yes? && f.propertyType.Yes?
              && f.bedrooms.Yes? && f.area.Yes? && f.price.Yes? && f.similarity == Some(1.0)
  {
    RoundedReaches(Total(f), 0);
    RoundedIsNearest(Total(f));
    hide Rounded;
    assert Rounded(Total(f)) <= 1.0 by { AtMostOne(Total(f)); }
  }

  lemma AtMostOne(x: real)
    requires x <= 1.0
    ensures Rounded(x) <= 1.0
  {
  }

  /** Without both full addresses, a pair is eligible exactly when location, neighbourhood and known
      property type agree, bedrooms, area and price all match, and the titles are distinctive. */
  lemma AddresslessEligibility(spanish: Normalizer, first: Snapshot, second: Snapshot)
    requires !AddressesKnown(spanish, first, second)
    ensures var f := Compare(spanish, first, second);
            ScoreOf(spanish, first, second).eligible <==>
              && f.location && f.neighbourhood.Yes? && f.propertyType.Yes?
              && f.bedrooms.Yes? && f.area.Yes? && f.price.Yes?
              && |TitleTokens(spanish, first.title)| >= 3 && |TitleTokens(spanish, second.title)| >= 3
              && Dice(TitleTokens(spanish, first.title), TitleTokens(spanish, second.title)) >= 0.8
  {
    ComparisonIsSound(spanish, first, second);
    var f := Compare(spanish, first, second);
    ScoreIsAFraction(f);
    ThresholdReached(Total(f));
    hide Rounded, Dice, TokenSet, AreasSimilar, PricesSimilar, BedroomsSimilar, NeighbourhoodsEqual, PropertyTypesEqual, SameLocation;
  }

  function Points(f: Findings): nat {
    (if f.neighbourhood.Yes? then 1 else 0) + (if f.propertyType.Yes? then 1 else 0)
    + (if f.bedrooms.Yes? then 2 else 0) + (if f.area.Yes? then 3 else 0) + (if f.price.Yes? then 3 else 0)
  }

  /** With one exact address, a pair is eligible exactly when nothing conflicts and the other
      evidence is worth six points, or five or four with a title that makes up for it. */
  lemma AddressEligibility(f: Findings)
    requires f.Sound() && f.address
    ensures Judged(f).eligible <==>
              && f.location && !f.propertyType.No? && !f.bedrooms.No? && !f.area.No? && !f.price.No?
              && (|| Points(f) >= 6
                  || (Points(f) == 5 && f.similarity.Some? && f.similarity.value >= 0.2995)
                  || (Points(f) == 4 && f.similarity.Some? && f.similarity.value >= 0.7995))
  {
    ScoreIsAFraction(f);
    ThresholdReached(Total(f));
    hide Rounded;
  }

  /** High confidence means one exact address; an address that differs rules a pair out. */
  lemma HighMeansExactAddress(spanish: Normalizer, first: Snapshot, second: Snapshot)
    ensures ScoreOf(spanish, first, second).confidence.High? ==>
              AddressesKnown(spanish, first, second) && SameAddress(spanish, first, second)
    ensures ScoreOf(spanish, first, second).eligible && AddressesKnown(spanish, first, second) ==>
              SameAddress(spanish, first, second)
  {
    ComparisonIsSound(spanish, first, second);
    var f := Compare(spanish, first, second);
    ScoreIsAFraction(f);
    ThresholdReached(Total(f));
    hide Rounded, Dice, TokenSet, AreasSimilar, PricesSimilar, BedroomsSimilar, NeighbourhoodsEqual, PropertyTypesEqual, SameLocation;
  }

  function Contributions(reasons: seq<Reason>): real {
    if reasons == [] then 0.0
    else Contributions(reasons[..|reasons| - 1]) + match reasons[|reasons| - 1] case Evidence(_, _, c, _) => c case _ => 0.0
  }

  /** The reasons account for the score: their contributions add up to it, up to two roundings. */
  lemma ReasonsAddUp(f: Findings)
    requires f.Sound()
    ensures Abs(Contributions(Judged(f).reasons) - Judged(f).score) <= 0.0001
  {
    ScoreIsAFraction(f);
    RoundedIsNearest(Total(f));
    RoundedIsNearest(TitlePart(f));
    hide Rounded;
    var reasons := Judged(f).reasons;
    EvidenceAddsUp(f);
    var extra := reasons[8..];
    assert reasons == EvidenceReasons(f) + extra;
    VerdictsAddNothing(EvidenceReasons(f), extra);
  }

  lemma EvidenceAddsUp(f: Findings)
    ensures Contributions(EvidenceReasons(f)) == Total(f) - TitlePart(f) + Rounded(TitlePart(f))
  {
    hide Rounded;
    var r := EvidenceReasons(f);
    assert r[..8] == r;
    assert forall i :: 0 <= i < 8 ==> r[..i + 1][..i] == r[..i];
    assert forall i {:trigger r[..i]} :: 0 < i <= 8 ==> Contributions(r[..i]) == Contributions(r[..i - 1]) + r[i - 1].contribution;
  }

  lemma {:induction false} VerdictsAddNothing(reasons: seq<Reason>, extra: seq<Reason>)
    requires forall i :: 0 <= i < |extra| ==> !extra[i].Evidence?
    ensures Contributions(reasons + extra) == Contributions(reasons)
  {
    if extra == [] {
      assert reasons + extra == reasons;
    } else {
      var init := extra[..|extra| - 1];
      assert (reasons + extra)[..|reasons + extra| - 1] == reasons + init;
      VerdictsAddNothing(reasons, init);
    }
  }
}
