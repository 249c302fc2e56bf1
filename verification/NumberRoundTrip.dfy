/** Printed amounts parse back to what was printed. */
module NumberRoundTrip {
  import opened Wrappers
  import opened Timestamps
  import opened Numbers

  // ---------- Text operations over concatenation ----------

  lemma {:induction false} TakeBodyConcat(a: string, b: string)
    requires forall c :: c in a ==> IsBody(c)
    ensures TakeBody(a + b) == a + TakeBody(b)
  {
    if a == "" {
      assert a + b == b;
    } else {
      assert (a + b)[0] == a[0] && (a + b)[1..] == a[1..] + b;
      assert a[0] in a;
      TakeBodyConcat(a[1..], b);
      assert [a[0]] + a[1..] == a;
    }
  }

  lemma {:induction false} RemoveSpacesKeeps(a: string, b: string)
    requires forall c :: c in a ==> !IsSpace(c)
    ensures RemoveSpaces(a + b) == a + RemoveSpaces(b)
  {
    if a == "" {
      assert a + b == b;
    } else {
      assert (a + b)[0] == a[0] && (a + b)[1..] == a[1..] + b;
      assert a[0] in a;
      RemoveSpacesKeeps(a[1..], b);
      assert [a[0]] + a[1..] == a;
    }
  }

  lemma {:induction false} RemoveConcat(a: string, b: string, c: char)
    ensures Remove(a + b, c) == Remove(a, c) + Remove(b, c)
  {
    if a == "" {
      assert a + b == b;
    } else {
      assert (a + b)[0] == a[0] && (a + b)[1..] == a[1..] + b;
      RemoveConcat(a[1..], b, c);
    }
  }

  lemma {:induction false} RemoveAbsent(a: string, c: char)
    requires c !in a
    ensures Remove(a, c) == a
  {
    if a != "" {
      RemoveAbsent(a[1..], c);
      assert [a[0]] + a[1..] == a;
    }
  }

  lemma {:induction false} ReplaceAbsent(a: string, b: string, c: char, d: char)
    requires c !in a
    ensures Replace(a + b, c, d) == a + Replace(b, c, d)
  {
    if a == "" {
      assert a + b == b;
    } else {
      assert (a + b)[0] == a[0] && (a + b)[1..] == a[1..] + b;
      ReplaceAbsent(a[1..], b, c, d);
      assert [a[0]] + a[1..] == a;
    }
  }

  lemma {:induction false} CountConcat(a: string, b: string, c: char)
    ensures Count(a + b, c) == Count(a, c) + Count(b, c)
  {
    if a == "" {
      assert a + b == b;
    } else {
      assert (a + b)[0] == a[0] && (a + b)[1..] == a[1..] + b;
      CountConcat(a[1..], b, c);
    }
  }

  lemma {:induction false} CountAbsent(a: string, c: char)
    requires c !in a
    ensures Count(a, c) == 0
  {
    if a != "" { CountAbsent(a[1..], c); }
  }

  lemma {:induction false} LastIndexBefore(a: string, b: string, c: char)
    requires c !in b
    ensures LastIndex(a + b, c) == LastIndex(a, c)
    decreases |b|
  {
    if b == "" {
      assert a + b == a;
    } else {
      assert (a + b)[..|a + b| - 1] == a + b[..|b| - 1];
      LastIndexBefore(a, b[..|b| - 1], c);
    }
  }

  lemma {:induction false} LastIndexIs(s: string, c: char, i: nat)
    requires i < |s| && s[i] == c && forall k :: i < k < |s| ==> s[k] != c
    ensures LastIndex(s, c) == i
    decreases |s|
  {
    if i < |s| - 1 { LastIndexIs(s[..|s| - 1], c, i); }
  }

  lemma NothingBehind(a: string, c: char, b: string)
    requires forall k :: 0 <= k < |b| ==> b[k] != c
    ensures var s := a + ([c] + b);
            |s| == |a| + 1 + |b| && s[|a|] == c && forall k :: |a| < k < |s| ==> s[k] != c
  {
  }

  lemma LastIndexAt(a: string, c: char, b: string)
    requires c !in b
    ensures LastIndex(a + ([c] + b), c) == |a|
  {
    NothingBehind(a, c, b);
    var s := a + ([c] + b);
    LastIndexIs(s, c, |a|);
  }

  // ---------- Digits ----------

  lemma {:induction false} ValueConcat(a: string, b: string)
    requires AllDigits(a) && AllDigits(b)
    ensures AllDigits(a + b) && Value(a + b) == Value(a) * Power10(|b|) + Value(b)
    decreases |b|
  {
    if b == "" {
      assert a + b == a;
    } else {
      var init := b[..|b| - 1];
      assert (a + b)[..|a + b| - 1] == a + init;
      ValueConcat(a, init);
      assert Power10(|b|) == 10 * Power10(|init|);
      assert Value(a) * Power10(|b|) == 10 * (Value(a) * Power10(|init|));
    }
  }

  lemma {:induction false} PadIsDigits(width: nat, n: nat)
    requires n < Power10(width)
    ensures AllDigits(Pad(width, n)) && Value(Pad(width, n)) == n
  {
    if width > 0 {
      PadIsDigits(width - 1, n / 10);
      assert Pad(width, n)[..width - 1] == Pad(width - 1, n / 10);
    }
  }

  lemma {:induction false} DecimalIsDigits(n: nat)
    ensures AllDigits(Decimal(n)) && Value(Decimal(n)) == n
  {
    if n >= 10 {
      DecimalIsDigits(n / 10);
      assert Decimal(n)[..|Decimal(n)| - 1] == Decimal(n / 10);
    } else {
      assert Decimal(n)[..0] == "";
    }
  }

  predicate IsSeparator(c: char) { c == '.' || c == ',' }

  /** Grouping: a digit first, only digits and separators, three digits after the last separator. */
  lemma {:induction false} GroupedShape(n: nat, separator: char)
    requires !IsDigit(separator)
    ensures var g := Grouped(n, separator);
            && IsDigit(g[0])
            && (forall c :: c in g ==> IsDigit(c) || c == separator)
            && (separator in g ==> |g| - 1 - LastIndex(g, separator) == 3)
  {
    if n < 1000 {
      DecimalIsDigits(n);
      assert Decimal(n)[0] in Decimal(n);
    } else {
      var front, tail := Grouped(n / 1000, separator), Pad(3, n % 1000);
      GroupedShape(n / 1000, separator);
      assert Power10(3) == 10 * (10 * (10 * Power10(0)));
      PadIsDigits(3, n % 1000);
      LastIndexAt(front, separator, tail);
    }
  }

  /** From the right, every fourth character is the separator and every other one a digit. */
  lemma {:induction false} EveryFourthSeparates(n: nat, separator: char, k: nat)
    requires !IsDigit(separator) && k < |Grouped(n, separator)|
    ensures var g := Grouped(n, separator);
            if k % 4 == 3 then g[|g| - 1 - k] == separator else IsDigit(g[|g| - 1 - k])
  {
    var g := Grouped(n, separator);
    if n < 1000 {
      DecimalIsDigits(n);
      DecimalIsShort(n);
      assert g[|g| - 1 - k] in g;
    } else {
      var front, tail := Grouped(n / 1000, separator), Pad(3, n % 1000);
      assert Power10(3) == 10 * (10 * (10 * Power10(0)));
      PadIsDigits(3, n % 1000);
      assert |g| == |front| + 4;
      if k < 3 {
        assert g[|g| - 1 - k] == tail[2 - k] && tail[2 - k] in tail;
      } else if k > 3 {
        EveryFourthSeparates(n / 1000, separator, k - 4);
        assert g[|g| - 1 - k] == front[|front| - 1 - (k - 4)];
      }
    }
  }

  lemma DecimalIsShort(n: nat)
    requires n < 1000
    ensures |Decimal(n)| <= 3
  {
    if n >= 10 {
      assert |Decimal(n)| == |Decimal(n / 10)| + 1;
      if n >= 100 { assert |Decimal(n / 10)| == |Decimal(n / 10 / 10)| + 1 && |Decimal(n / 10 / 10)| == 1; }
    }
  }

  /** A printed number has no zero in front of it. */
  lemma {:induction false} NoZeroInFront(n: nat, separator: char)
    ensures n > 0 ==> Decimal(n)[0] != '0' && Grouped(n, separator)[0] != '0'
    decreases n
  {
    if n > 0 {
      DecimalHasNoZeroInFront(n);
      if n >= 1000 { NoZeroInFront(n / 1000, separator); }
    }
  }

  lemma {:induction false} DecimalHasNoZeroInFront(n: nat)
    requires n > 0
    ensures Decimal(n)[0] != '0'
  {
    if n >= 10 { DecimalHasNoZeroInFront(n / 10); }
  }

  lemma RemoveGroup(front: string, separator: char, tail: string)
    requires separator !in tail
    ensures Remove(front + ([separator] + tail), separator) == Remove(front, separator) + tail
  {
    hide Remove;
    RemoveConcat(front, [separator] + tail, separator);
    RemoveHead(separator, tail);
    RemoveAbsent(tail, separator);
  }

  lemma RemoveHead(c: char, tail: string)
    ensures Remove([c] + tail, c) == Remove(tail, c)
  {
    var s := [c] + tail;
    assert s[1..] == tail && "" + Remove(tail, c) == Remove(tail, c);
  }

  /** Without the separators it spells the number. */
  lemma {:induction false} GroupedSpells(n: nat, separator: char)
    requires !IsDigit(separator)
    ensures var digits := Remove(Grouped(n, separator), separator);
            AllDigits(digits) && digits != "" && Value(digits) == n
  {
    hide Remove, Value;
    if n < 1000 {
      DecimalIsDigits(n);
      RemoveAbsent(Decimal(n), separator);
    } else {
      var front, tail := Grouped(n / 1000, separator), Pad(3, n % 1000);
      GroupedSpells(n / 1000, separator);
      assert Power10(3) == 10 * (10 * (10 * Power10(0)));
      PadIsDigits(3, n % 1000);
      RemoveGroup(front, separator, tail);
      ValueConcat(Remove(front, separator), tail);
    }
  }

  // ---------- The round trip ----------

  /** A text that begins with a digit: the number starts there. */
  lemma NumberStartsAt(token: string, rest: string)
    requires token != "" && IsDigit(token[0])
    requires forall c :: c in token ==> IsBody(c) && !IsSpace(c)
    requires TakeBody(rest) == "" || TakeBody(rest) == " "
    ensures DecimalNumber(token + rest) == ParseDecimal(false, Normalized(token))
  {
    TakeBodyConcat(token, rest);
    var found := token + TakeBody(rest);
    assert FirstNumber(token + rest) == Some(found) by { assert (token + rest)[0] == token[0]; }
    RemoveSpacesKeeps(token, TakeBody(rest));
    assert RemoveSpaces(" ") == "" by { assert " "[1..] == ""; }
    assert RemoveSpaces(found) == token;
  }

  /** A grouped whole number has no decimal separator. */
  lemma GroupedIsWhole(n: nat, separator: char)
    requires IsSeparator(separator)
    ensures Normalized(Grouped(n, separator)) == Remove(Grouped(n, separator), separator)
  {
    var g := Grouped(n, separator);
    var other := if separator == '.' then ',' else '.';
    GroupedShape(n, separator);
    GroupedSpells(n, separator);
    assert other !in g;
    assert DecimalSeparator(g) == None;
    RemoveAbsent(g, other);
    forall c | c in Remove(g, separator) ensures c != other {
    }
    RemoveAbsent(Remove(g, separator), other);
  }

  lemma DigitsHoldNoPoint(s: string)
    requires AllDigits(s)
    ensures '.' !in s && ',' !in s
  {
  }

  /** For every amount, parsing the text printed for it gives the amount back, exactly when it has
      at most 28 digits; beyond that the parser raises. */
  lemma PrintedEurosParseBack(n: nat)
    ensures NormalizeEuroPrice(FormatEuros(n)) == if n < Power10(PRECISION) then Ok(Some(n)) else Raised(InvalidOperation)
  {
    var g := Grouped(n, '.');
    GroupedShape(n, '.');
    GroupedSpells(n, '.');
    assert TakeBody([' ', EURO]) == " " by {
      assert [' ', EURO][1..] == [EURO];
      assert TakeBody([EURO]) == "";
    }
    NumberStartsAt(g, [' ', EURO]);
    GroupedIsWhole(n, '.');
    DigitsHoldNoPoint(Remove(g, '.'));
    assert DecimalNumber(FormatEuros(n)) == Some(Number(false, n, 0));
    assert RoundHalfUp(n, 0) == n;
  }

  /** A text that begins with a sign and a digit. */
  lemma SignedNumberStartsAt(sign: char, token: string, rest: string)
    requires IsSign(sign) && token != "" && IsDigit(token[0])
    requires forall c :: c in token ==> IsBody(c) && !IsSpace(c)
    requires TakeBody(rest) == " "
    ensures DecimalNumber([sign] + (token + rest)) == ParseDecimal(sign == '-', Normalized(token))
  {
    hide Normalized, ParseDecimal;
    TakeBodyConcat(token, rest);
    var text, signed := [sign] + (token + rest), [sign] + token;
    assert text[1..] == token + rest && text[1] == token[0];
    assert FirstNumber(text) == Some([sign] + (token + " "));
    assert [sign] + (token + " ") == signed + " ";
    RemoveSpacesKeeps(signed, " ");
    assert RemoveSpaces(" ") == "" by { assert " "[1..] == ""; }
    assert RemoveSpaces(signed + " ") == signed && signed[1..] == token;
  }

  lemma SignedIsNumber(n: nat, sign: char)
    requires IsSign(sign)
    ensures DecimalNumber([sign] + FormatEuros(n)) == Some(Number(sign == '-', n, 0))
  {
    var g := Grouped(n, '.');
    GroupedShape(n, '.');
    GroupedSpells(n, '.');
    assert TakeBody([' ', EURO]) == " " by {
      assert [' ', EURO][1..] == [EURO];
      assert TakeBody([EURO]) == "";
    }
    SignedNumberStartsAt(sign, g, [' ', EURO]);
    GroupedIsWhole(n, '.');
    DigitsHoldNoPoint(Remove(g, '.'));
    hide DecimalNumber, TakeBody, Normalized;
  }

  lemma WholeIsRounded(n: nat)
    ensures RoundHalfUp(n, 0) == n
  {
    assert Power10(0) == 1;
  }

  /** A sign in front: a negative amount is refused unless it is zero, before any rounding could raise,
      and a plus changes nothing. */
  lemma SignedEurosParse(n: nat, sign: char)
    requires IsSign(sign)
    ensures NormalizeEuroPrice([sign] + FormatEuros(n)) ==
              if sign == '-' && n > 0 then Ok(None) else if n < Power10(PRECISION) then Ok(Some(n)) else Raised(InvalidOperation)
  {
    SignedIsNumber(n, sign);
    WholeIsRounded(n);
    hide DecimalNumber, FormatEuros, RoundHalfUp, Power10;
  }

  lemma AmountSeparators(euros: nat, cents: nat, group: char, point: char)
    requires cents < 100 && IsSeparator(group) && IsSeparator(point) && group != point
    ensures var token, g := Amount(euros, cents, group, point), Grouped(euros, group);
            && |token| == |g| + 3
            && LastIndex(token, point) == |g| && Count(token, point) == 1
            && LastIndex(token, group) < |g|
  {
    var g, tail := Grouped(euros, group), Pad(2, cents);
    GroupedShape(euros, group);
    PowersOf10();
    PadIsDigits(2, cents);
    DigitsHoldNoPoint(tail);
    hide LastIndex, Pad, Grouped, Count;
    LastIndexAt(g, point, tail);
    LastIndexBefore(g, [point] + tail, group);
    CountConcat(g, [point] + tail, point);
    CountConcat([point], tail, point);
    CountAbsent(g, point);
    CountAbsent(tail, point);
    CountOne(point);
  }

  lemma CountOne(c: char)
    ensures Count([c], c) == 1
  {
    assert [c][1..] == "";
  }

  /** The separator that the two decimals follow is taken for the decimal one. */
  lemma AmountIsDecimal(euros: nat, cents: nat, group: char, point: char)
    requires cents < 100 && IsSeparator(group) && IsSeparator(point) && group != point
    ensures DecimalSeparator(Amount(euros, cents, group, point)) == Some(point)
  {
    hide Amount, LastIndex, Count;
    AmountSeparators(euros, cents, group, point);
  }

  lemma AmountNormalizes(euros: nat, cents: nat, group: char, point: char)
    requires cents < 100 && IsSeparator(group) && IsSeparator(point) && group != point
    ensures Normalized(Amount(euros, cents, group, point)) == Remove(Grouped(euros, group), group) + (['.'] + Pad(2, cents))
  {
    var g, tail := Grouped(euros, group), Pad(2, cents);
    GroupedShape(euros, group);
    GroupedSpells(euros, group);
    PowersOf10();
    PadIsDigits(2, cents);
    AmountIsDecimal(euros, cents, group, point);
    DigitsHoldNoPoint(tail);
    RemoveConcat(g, [point] + tail, group);
    RemoveAbsent([point] + tail, group);
    var digits := Remove(g, group);
    DigitsHoldNoPoint(digits);
    ReplaceAbsent(digits, [point] + tail, point, '.');
    ReplaceAbsent([], [point] + tail, point, '.');
    ReplaceAbsent(tail, [], point, '.');
    assert tail + [] == tail;
    assert ([point] + tail)[1..] == tail;
  }

  lemma PointSplits(whole: string, cents: nat)
    requires AllDigits(whole) && whole != "" && cents < 100
    ensures ParseDecimal(false, whole + (['.'] + Pad(2, cents))) == Some(Number(false, Value(whole) * 100 + cents, 2))
  {
    hide LastIndex, Value, Pad, Power10;
    var tail := Pad(2, cents);
    PowersOf10();
    PadIsDigits(2, cents);
    DigitsHoldNoPoint(tail);
    LastIndexAt(whole, '.', tail);
    var s := whole + (['.'] + tail);
    assert s[..|whole|] == whole && s[|whole| + 1..] == tail;
  }

  lemma CentsRoundHalfUp(euros: nat, cents: nat)
    requires cents < 100
    ensures RoundHalfUp(euros * 100 + cents, 2) == euros + (if cents >= 50 then 1 else 0)
  {
    PowersOf10();
    assert RoundHalfUp(euros * 100 + cents, 2) == (2 * (euros * 100 + cents) + 100) / 200;
  }

  /** An amount of `euros` and `cents` parses to its half-up whole euros. */
  lemma AmountParses(euros: nat, cents: nat, group: char, point: char)
    requires cents < 100 && IsSeparator(group) && IsSeparator(point) && group != point
    ensures var whole := euros + (if cents >= 50 then 1 else 0);
            NormalizeEuroPrice(Amount(euros, cents, group, point)) ==
              if whole < Power10(PRECISION) then Ok(Some(whole)) else Raised(InvalidOperation)
  {
    hide Normalized, ParseDecimal, RoundHalfUp, Amount, DecimalNumber, Value, Power10, Pad, Remove;
    AmountIsToken(euros, cents, group, point);
    AmountNormalizes(euros, cents, group, point);
    GroupedSpells(euros, group);
    PointSplits(Remove(Grouped(euros, group), group), cents);
    CentsRoundHalfUp(euros, cents);
  }

  lemma AmountIsToken(euros: nat, cents: nat, group: char, point: char)
    requires cents < 100 && IsSeparator(group) && IsSeparator(point) && group != point
    ensures DecimalNumber(Amount(euros, cents, group, point)) == ParseDecimal(false, Normalized(Amount(euros, cents, group, point)))
  {
    hide Normalized, ParseDecimal, DecimalNumber;
    var token := Amount(euros, cents, group, point);
    GroupedShape(euros, group);
    PowersOf10();
    PadIsDigits(2, cents);
    assert token[0] == Grouped(euros, group)[0];
    assert token + "" == token;
    NumberStartsAt(token, "");
  }

  /** Spanish and English spellings of one amount parse to the same value. */
  lemma SpellingsAgree(euros: nat, cents: nat)
    requires cents < 100
    ensures NormalizeEuroPrice(Amount(euros, cents, '.', ',')) == NormalizeEuroPrice(Amount(euros, cents, ',', '.'))
  {
    AmountParses(euros, cents, '.', ',');
    AmountParses(euros, cents, ',', '.');
  }
}
