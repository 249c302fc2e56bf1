/** What the price parser makes of other texts than printed amounts. */
module NumberParsing {
  import opened Wrappers
  import opened Timestamps
  import opened Numbers
  import opened NumberRoundTrip

  // ---------- Which separator is the decimal one ----------

  /** `i` is where the last `.` or `,` stands. */
  predicate IsLastSeparator(token: string, i: nat) {
    i < |token| && IsSeparator(token[i]) && forall k :: i < k < |token| ==> !IsSeparator(token[k])
  }

  lemma {:induction false} LastIndexSpelledOut(s: string, c: char)
    ensures var i := LastIndex(s, c);
            && (i >= 0 ==> s[i] == c) && (forall k :: i < k < |s| ==> s[k] != c)
  {
    if s != "" && s[|s| - 1] != c {
      var init := s[..|s| - 1];
      LastIndexSpelledOut(init, c);
      assert forall k :: 0 <= k < |init| ==> s[k] == init[k];
    }
  }

  lemma {:induction false} CountSpelledOut(s: string, c: char, i: nat)
    requires i < |s| && s[i] == c
    ensures Count(s, c) >= 1
    ensures Count(s, c) == 1 <==> forall k :: 0 <= k < |s| && k != i ==> s[k] != c
  {
    assert s == s[..i] + ([c] + s[i + 1..]);
    CountConcat(s[..i], [c] + s[i + 1..], c);
    CountConcat([c], s[i + 1..], c);
    CountOne(c);
    CountIsZero(s[..i], c);
    CountIsZero(s[i + 1..], c);
    if forall k :: 0 <= k < |s| && k != i ==> s[k] != c {
      var rest := s[i + 1..];
      forall k | 0 <= k < |rest| ensures rest[k] != c {
        assert rest[k] == s[i + 1 + k];
      }
    } else {
      var k :| 0 <= k < |s| && k != i && s[k] == c;
      if k < i { assert s[..i][k] == c; } else { assert s[i + 1..][k - i - 1] == c; }
    }
  }

  lemma {:induction false} CountIsZero(s: string, c: char)
    ensures Count(s, c) == 0 <==> forall k :: 0 <= k < |s| ==> s[k] != c
  {
    if s != "" {
      CountIsZero(s[1..], c);
      assert forall k :: 0 <= k < |s[1..]| ==> s[1..][k] == s[k + 1];
      if s[0] != c {
        forall k | 0 <= k < |s| && forall n :: 0 <= n < |s[1..]| ==> s[1..][n] != c ensures s[k] != c {
          if k > 0 { assert s[1..][k - 1] == s[k]; }
        }
      }
    }
  }

  /** The last separator is the decimal one exactly when one or two characters follow it, and the other
      separator occurs as well or it is the only one of its kind; no other separator ever is. */
  lemma DecimalSeparatorSpelledOut(token: string, i: nat)
    requires IsLastSeparator(token, i)
    ensures var c := token[i];
            var other := if c == '.' then ',' else '.';
            DecimalSeparator(token) ==
              if |token| - 1 - i in {1, 2} && (other in token || forall k :: 0 <= k < i ==> token[k] != c) then Some(c) else None
  {
    var c := token[i];
    var other := if c == '.' then ',' else '.';
    LastIndexSpelledOut(token, c);
    LastIndexSpelledOut(token, other);
    CountSpelledOut(token, c, i);
    assert LastIndex(token, c) == i && LastIndex(token, other) < i;
    hide LastIndex, Count;
  }

  lemma NoSeparatorNoDecimals(token: string)
    requires forall c :: c in token ==> !IsSeparator(c)
    ensures DecimalSeparator(token) == None
  {
  }

  // ---------- Characters and bounds ----------

  /** Which characters count as spaces: tabs and line ends, the four ASCII separators, space, next line,
      and the no-break space. */
  lemma SpacesSpelledOut(c: char)
    ensures IsSpace(c) <==> (c as int) in {9, 10, 11, 12, 13, 28, 29, 30, 31, 32, 133, 160}
  {
  }

  /** The greatest whole price that parses is one less than a one with 28 zeros. */
  lemma BoundSpelledOut()
    ensures Power10(PRECISION) == 10_000_000_000_000_000_000_000_000_000
  {
    assert Power10(4) == 10_000 by { assert Power10(2) == 100; }
    assert Power10(8) == 100_000_000 by { assert Power10(6) == 1_000_000; }
    assert Power10(12) == 1_000_000_000_000 by { assert Power10(10) == 10_000_000_000; }
    assert Power10(16) == 10_000_000_000_000_000 by { assert Power10(14) == 100_000_000_000_000; }
    assert Power10(20) == 100_000_000_000_000_000_000 by { assert Power10(18) == 1_000_000_000_000_000_000; }
    assert Power10(24) == 1_000_000_000_000_000_000_000_000 by { assert Power10(22) == 10_000_000_000_000_000_000_000; }
    assert Power10(26) == 100_000_000_000_000_000_000_000_000;
  }

  /** A minus refuses every amount but zero, and a plus none. */
  lemma SignsSpelledOut(n: nat)
    requires n < 10_000_000_000_000_000_000_000_000_000
    ensures NormalizeEuroPrice("-" + FormatEuros(n)) == if n == 0 then Ok(Some(0)) else Ok(None)
    ensures NormalizeEuroPrice("+" + FormatEuros(n)) == Ok(Some(n))
  {
    BoundSpelledOut();
    SignedEurosParse(n, '-');
    SignedEurosParse(n, '+');
    assert "-" == ['-'] && "+" == ['+'];
    hide NormalizeEuroPrice, FormatEuros, Power10;
  }

  // ---------- Where the number is ----------

  /** Text without digits in front of a number changes nothing, unless it ends with a sign that the
      number then takes. */
  lemma {:induction false} PrefixIsSkipped(prefix: string, text: string)
    requires forall c :: c in prefix ==> !IsDigit(c)
    requires prefix == "" || !IsSign(prefix[|prefix| - 1])
    ensures FirstNumber(prefix + text) == FirstNumber(text)
  {
    if prefix == "" {
      assert prefix + text == text;
    } else {
      var all := prefix + text;
      assert all[0] == prefix[0] && all[0] in prefix && all[1..] == prefix[1..] + text;
      if |prefix| > 1 { assert all[1] == prefix[1] && prefix[1] in prefix; }
      PrefixIsSkipped(prefix[1..], text);
    }
  }

  /** A text without digits has no price. */
  lemma {:induction false} NoDigitsNoPrice(text: string)
    requires forall c :: c in text ==> !IsDigit(c)
    ensures FirstNumber(text) == None && NormalizeEuroPrice(text) == Ok(None)
  {
    if text != "" {
      assert text[0] in text;
      if |text| > 1 { assert text[1] in text; }
      NoDigitsNoPrice(text[1..]);
    }
  }

  lemma {:induction false} BodyEnds(body: string, c: char, rest: string)
    requires !IsBody(c)
    ensures TakeBody(body + ([c] + rest)) == TakeBody(body)
  {
    var all := body + ([c] + rest);
    if body == "" {
      assert all[0] == c;
    } else {
      assert all[0] == body[0] && all[1..] == body[1..] + ([c] + rest);
      BodyEnds(body[1..], c, rest);
    }
  }

  /** Only the first number of a text counts: what follows it, after a character that no number
      contains, changes nothing. */
  lemma {:induction false} SuffixIsIgnored(text: string, c: char, rest: string)
    requires FirstNumber(text).Some? && !IsBody(c)
    ensures FirstNumber(text + ([c] + rest)) == FirstNumber(text)
  {
    var all := text + ([c] + rest);
    assert all[0] == text[0] && all[1..] == text[1..] + ([c] + rest);
    if IsSign(text[0]) && |text| > 1 && IsDigit(text[1]) {
      assert all[1] == text[1];
      BodyEnds(text[1..], c, rest);
    } else if IsDigit(text[0]) {
      BodyEnds(text, c, rest);
    } else {
      if |text| > 1 { assert all[1] == text[1]; }
      SuffixIsIgnored(text[1..], c, rest);
    }
  }

  /** So a printed amount is found wherever it stands: a label before it, a unit and a remark after it. */
  lemma LabelledEurosParse(lead: string, n: nat, remark: string)
    requires (forall c :: c in lead ==> !IsDigit(c)) && (lead == "" || !IsSign(lead[|lead| - 1]))
    ensures NormalizeEuroPrice(lead + (FormatEuros(n) + remark)) ==
              if n < Power10(PRECISION) then Ok(Some(n)) else Raised(InvalidOperation)
  {
    EuroTextIsFound(n, remark);
    PrefixIsSkipped(lead, FormatEuros(n) + remark);
    SameNumberSamePrice(lead + (FormatEuros(n) + remark), FormatEuros(n));
    PrintedEurosParseBack(n);
    hide FirstNumber, FormatEuros, Power10, NormalizeEuroPrice;
  }

  lemma SameNumberSamePrice(a: string, b: string)
    requires FirstNumber(a) == FirstNumber(b)
    ensures NormalizeEuroPrice(a) == NormalizeEuroPrice(b)
  {
    hide FirstNumber, Power10, RoundHalfUp, Normalized, ParseDecimal, RemoveSpaces;
  }

  lemma EuroTextIsFound(n: nat, remark: string)
    ensures FirstNumber(FormatEuros(n) + remark) == FirstNumber(FormatEuros(n))
  {
    var text, g := FormatEuros(n), Grouped(n, '.');
    GroupedShape(n, '.');
    assert (g + " ")[0] == g[0];
    assert FirstNumber(g + " ").Some?;
    assert text == (g + " ") + ([EURO] + "") by { assert [' ', EURO] == " " + ([EURO] + ""); }
    assert text + remark == (g + " ") + ([EURO] + remark) by { assert [' ', EURO] + remark == " " + ([EURO] + remark); }
    hide FirstNumber, FormatEuros, Grouped;
    SuffixIsIgnored(g + " ", EURO, "");
    SuffixIsIgnored(g + " ", EURO, remark);
  }

  // ---------- Other spellings ----------

  lemma WholeIsParsed(digits: string, n: nat)
    requires AllDigits(digits) && digits != "" && Value(digits) == n
    ensures ParseDecimal(false, digits) == Some(Number(false, n, 0))
  {
    DigitsHoldNoPoint(digits);
  }

  lemma WholeNumberIsPriced(text: string, n: nat)
    requires DecimalNumber(text) == Some(Number(false, n, 0))
    ensures NormalizeEuroPrice(text) == if n < Power10(PRECISION) then Ok(Some(n)) else Raised(InvalidOperation)
  {
    WholeIsRounded(n);
    hide DecimalNumber, Power10, RoundHalfUp;
  }

  /** Whole euros parse alike grouped by points, as in Spanish, or by commas, as in English. */
  lemma WholeGroupingsParse(n: nat, separator: char)
    requires IsSeparator(separator)
    ensures NormalizeEuroPrice(Grouped(n, separator)) == if n < Power10(PRECISION) then Ok(Some(n)) else Raised(InvalidOperation)
  {
    var g := Grouped(n, separator);
    GroupedShape(n, separator);
    GroupedSpells(n, separator);
    assert g + "" == g;
    NumberStartsAt(g, "");
    GroupedIsWhole(n, separator);
    WholeIsParsed(Remove(g, separator), n);
    WholeNumberIsPriced(g, n);
    hide DecimalNumber, Normalized, ParseDecimal, Grouped, Power10;
  }

  lemma {:induction false} SpacesAreRemoved(text: string, space: char)
    requires IsSpace(space) && forall c :: c in text ==> IsDigit(c) || c == space
    ensures RemoveSpaces(text) == Remove(text, space)
  {
    if text != "" {
      assert text[0] in text;
      SpacesAreRemoved(text[1..], space);
    }
  }

  /** And grouped by spaces, breaking or not. */
  lemma SpaceGroupingParses(n: nat, space: char)
    requires IsSpace(space)
    ensures NormalizeEuroPrice(Grouped(n, space)) == if n < Power10(PRECISION) then Ok(Some(n)) else Raised(InvalidOperation)
  {
    SpaceGroupingIsNumber(n, space);
    WholeNumberIsPriced(Grouped(n, space), n);
    hide *;
  }

  lemma SpaceGroupingIsNumber(n: nat, space: char)
    requires IsSpace(space)
    ensures DecimalNumber(Grouped(n, space)) == Some(Number(false, n, 0))
  {
    hide Value, Remove, Power10, LastIndex;
    var g := Grouped(n, space);
    GroupedShape(n, space);
    GroupedSpells(n, space);
    hide Grouped;
    TakeBodyConcat(g, "");
    assert g + "" == g && TakeBody(g) == g;
    assert FirstNumber(g) == Some(g);
    SpacesAreRemoved(g, space);
    var digits := Remove(g, space);
    DigitsHoldNoPoint(digits);
    NoSeparatorNoDecimals(digits);
    RemoveAbsent(digits, '.');
    RemoveAbsent(digits, ',');
    assert Normalized(digits) == digits;
    assert digits[0] in digits;
    WholeIsParsed(digits, n);
  }

  /** One decimal is a decimal too: five tenths round up. */
  lemma OneDecimalParses(euros: nat, tenths: nat, group: char, point: char)
    requires tenths < 10 && IsSeparator(group) && IsSeparator(point) && group != point
    ensures var whole := euros + (if tenths >= 5 then 1 else 0);
            NormalizeEuroPrice(Grouped(euros, group) + [point, Digit(tenths)]) ==
              if whole < Power10(PRECISION) then Ok(Some(whole)) else Raised(InvalidOperation)
  {
    hide *;
    var token := Grouped(euros, group) + [point, Digit(tenths)];
    assert token == Grouped(euros, group) + ([point] + [Digit(tenths)]);
    OneDecimalIsNumber(euros, tenths, group, point);
    TenthsRoundHalfUp(euros, tenths);
    NumberIsPriced(token, euros * 10 + tenths, 1);
  }

  lemma NumberIsPriced(text: string, unscaled: nat, scale: nat)
    requires DecimalNumber(text) == Some(Number(false, unscaled, scale))
    ensures NormalizeEuroPrice(text) ==
              if RoundHalfUp(unscaled, scale) < Power10(PRECISION) then Ok(Some(RoundHalfUp(unscaled, scale))) else Raised(InvalidOperation)
  {
    hide DecimalNumber, Power10, RoundHalfUp;
  }

  lemma OneDecimalIsNumber(euros: nat, tenths: nat, group: char, point: char)
    requires tenths < 10 && IsSeparator(group) && IsSeparator(point) && group != point
    ensures DecimalNumber(Grouped(euros, group) + ([point] + [Digit(tenths)])) == Some(Number(false, euros * 10 + tenths, 1))
  {
    hide DecimalNumber, Normalized, ParseDecimal, Grouped, Remove, Value, LastIndex;
    var token := Grouped(euros, group) + ([point] + [Digit(tenths)]);
    OneDecimalIsToken(euros, tenths, group, point);
    assert token + "" == token;
    NumberStartsAt(token, "");
    OneDecimalNormalizes(euros, tenths, group, point);
    GroupedSpells(euros, group);
    TenthsParse(Remove(Grouped(euros, group), group), tenths);
  }

  lemma OneDecimalIsToken(euros: nat, tenths: nat, group: char, point: char)
    requires tenths < 10 && IsSeparator(group) && IsSeparator(point) && group != point
    ensures var token := Grouped(euros, group) + ([point] + [Digit(tenths)]);
            token != "" && IsDigit(token[0]) && forall c :: c in token ==> IsBody(c) && !IsSpace(c)
  {
    var g := Grouped(euros, group);
    GroupedShape(euros, group);
    assert (g + ([point] + [Digit(tenths)]))[0] == g[0];
    hide Grouped;
  }

  lemma OneDecimalNormalizes(euros: nat, tenths: nat, group: char, point: char)
    requires tenths < 10 && IsSeparator(group) && IsSeparator(point) && group != point
    ensures Normalized(Grouped(euros, group) + ([point] + [Digit(tenths)])) == Remove(Grouped(euros, group), group) + (['.'] + [Digit(tenths)])
  {
    var g, tail := Grouped(euros, group), [Digit(tenths)];
    var token := g + ([point] + tail);
    GroupedShape(euros, group);
    GroupedSpells(euros, group);
    assert IsLastSeparator(token, |g|);
    assert point !in g;
    assert forall k :: 0 <= k < |g| ==> token[k] == g[k] && g[k] in g;
    DecimalSeparatorSpelledOut(token, |g|);
    assert DecimalSeparator(token) == Some(point);
    RemoveConcat(g, [point] + tail, group);
    RemoveAbsent([point] + tail, group);
    var digits := Remove(g, group);
    DigitsHoldNoPoint(digits);
    ReplaceAbsent(digits, [point] + tail, point, '.');
    ReplaceAbsent([], [point] + tail, point, '.');
    ReplaceAbsent(tail, [], point, '.');
    assert tail + [] == tail;
    assert ([point] + tail)[1..] == tail;
    hide DecimalSeparator, Grouped;
  }

  lemma TenthsParse(whole: string, tenths: nat)
    requires AllDigits(whole) && whole != "" && tenths < 10
    ensures ParseDecimal(false, whole + (['.'] + [Digit(tenths)])) == Some(Number(false, Value(whole) * 10 + tenths, 1))
  {
    hide LastIndex, Value, Power10;
    var tail := [Digit(tenths)];
    DigitsHoldNoPoint(whole);
    OneDigit(tenths);
    LastIndexAt(whole, '.', tail);
    var s := whole + (['.'] + tail);
    assert s[..|whole|] == whole && s[|whole| + 1..] == tail;
  }

  lemma OneDigit(n: nat)
    requires n < 10
    ensures AllDigits([Digit(n)]) && Value([Digit(n)]) == n && Power10(1) == 10
  {
    assert [Digit(n)][..0] == "" && Value("") == 0;
    assert Power10(1) == 10 * Power10(0);
  }

  lemma TenthsRoundHalfUp(euros: nat, tenths: nat)
    requires tenths < 10
    ensures RoundHalfUp(euros * 10 + tenths, 1) == euros + (if tenths >= 5 then 1 else 0)
  {
    assert Power10(1) == 10 * Power10(0) && Power10(0) == 1;
    assert RoundHalfUp(euros * 10 + tenths, 1) == (2 * (euros * 10 + tenths) + 10) / 20;
  }
}
