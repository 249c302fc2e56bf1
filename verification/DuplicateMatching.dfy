/** Comparisons of two listings from different portals. Text is compared as tokens. */
module DuplicateMatching {
  import opened Wrappers
  import opened Ordering

  /** The tokens of a text: lower-cased words and numbers without accents, abbreviations expanded. */
  type Normalizer = string -> seq<string>

  /** What a comparison says: `NotKnown` when a side is missing. */
  datatype Verdict = Yes | No | NotKnown

  function Verdicted(agree: bool): Verdict { if agree then Yes else No }

  function Tokens(spanish: Normalizer, value: Option<string>): seq<string> {
    match value case None => [] case Some(text) => spanish(text)
  }

  function TokenSet(spanish: Normalizer, value: Option<string>): set<string> {
    set token | token in Tokens(spanish, value)
  }

  const TITLE_STOP_WORDS: set<string> :=
    {"a", "al", "con", "de", "del", "el", "en", "la", "las", "los", "para", "por", "se", "un", "una", "y"}

  function TitleTokens(spanish: Normalizer, title: string): set<string> {
    TokenSet(spanish, Some(title)) - TITLE_STOP_WORDS
  }

  /** Twice the shared tokens over all tokens. */
  function Dice(first: set<string>, second: set<string>): real
    requires first != {} && second != {}
  {
    2.0 * |first * second| as real / (|first| + |second|) as real
  }

  function TitleSimilarity(first: set<string>, second: set<string>): Option<real> {
    if first == {} || second == {} then None else Some(Dice(first, second))
  }

  function Abs(x: real): real { if x < 0.0 then -x else x }

  function Max(x: real, y: real): real { if x < y then y else x }

  function RelativeDifference(first: real, second: real): real {
    var denominator := Max(Abs(first), Abs(second));
    if denominator == 0.0 then 0.0 else Abs(first - second) / denominator
  }

  function PricesSimilar(first: Option<int>, second: Option<int>): Verdict {
    if first.None? || second.None? then NotKnown
    else if first.value < 0 || second.value < 0 then No
    else Verdicted(RelativeDifference(first.value as real, second.value as real) <= 0.03)
  }

  function AreasSimilar(first: Option<real>, second: Option<real>): Verdict {
    if first.None? || second.None? then NotKnown
    else if first.value <= 0.0 || second.value <= 0.0 then No
    else
      var difference := Abs(first.value - second.value);
      Verdicted(difference <= 3.0 || difference / Max(first.value, second.value) <= 0.05)
  }

  function BedroomsSimilar(first: Option<int>, second: Option<int>): Verdict {
    if first.None? || second.None? then NotKnown
    else if first.value < 0 || second.value < 0 then No
    else Verdicted(first.value == second.value)
  }

  lemma RatioAtMost(part: real, whole: real, bound: real)
    requires whole > 0.0
    ensures part / whole <= bound <==> part <= bound * whole
  {
    assert part == part / whole * whole;
  }

  /** Similar prices differ by at most 3% of the greater one. */
  lemma SimilarPrices(a: int, b: int)
    ensures PricesSimilar(Some(a), Some(b)) == Yes <==>
              a >= 0 && b >= 0 && Abs((a - b) as real) <= 0.03 * Max(a as real, b as real)
  {
    if a >= 0 && b >= 0 && (a > 0 || b > 0) {
      RatioAtMost(Abs(a as real - b as real), Max(a as real, b as real), 0.03);
    }
  }

  /** Similar areas differ by at most 3 or 5% of the greater one. */
  lemma SimilarAreas(a: real, b: real)
    ensures AreasSimilar(Some(a), Some(b)) == Yes <==>
              a > 0.0 && b > 0.0 && (Abs(a - b) <= 3.0 || Abs(a - b) <= 0.05 * Max(a, b))
  {
    if a > 0.0 && b > 0.0 {
      RatioAtMost(Abs(a - b), Max(a, b), 0.05);
    }
  }

  /** The similarity is between 0 and 1, and 1 exactly when the titles have the same tokens. */
  lemma DiceIsASimilarity(first: set<string>, second: set<string>)
    requires first != {} && second != {}
    ensures 0.0 <= Dice(first, second) <= 1.0
    ensures Dice(first, second) == 1.0 <==> first == second
    ensures Dice(first, second) == Dice(second, first)
  {
    var shared := first * second;
    assert shared == second * first;
    SubsetHasFewer(shared, first);
    SubsetHasFewer(shared, second);
    var total := (|first| + |second|) as real;
    assert total > 0.0 && 2.0 * |shared| as real <= total;
    RatioAtMost(2.0 * |shared| as real, total, 1.0);
    assert 2.0 * |shared| as real == Dice(first, second) * total;
    if first == second { assert shared == first; }
  }
}
