/** The price printer and the parser that guesses which separator is the decimal one. */
module Numbers {
  import opened Wrappers
  import opened Timestamps

  predicate IsDigit(c: char) { '0' <= c <= '9' }

  predicate IsSpace(c: char) {
    c == ' ' || '\U{0009}' <= c <= '\U{000D}' || '\U{001C}' <= c <= '\U{001F}' || c == '\U{0085}' || c == '\U{00A0}'
  }

  predicate IsSign(c: char) { c == '-' || c == '+' }

  /** What may follow the first digit: `[\d.,\s]`. */
  predicate IsBody(c: char) { IsDigit(c) || c == '.' || c == ',' || IsSpace(c) }

  // ---------- Printing ----------

  const EURO: char := '\U{20AC}'

  function Decimal(n: nat): (s: string)
    ensures s != ""
  {
    if n < 10 then [Digit(n)] else Decimal(n / 10) + [Digit(n % 10)]
  }

  /** `f"{n:,}"` with `separator` between groups of three digits. */
  function Grouped(n: nat, separator: char): (s: string)
    ensures s != ""
  {
    if n < 1000 then Decimal(n) else Grouped(n / 1000, separator) + ([separator] + Pad(3, n % 1000))
  }

  function FormatEuros(n: nat): string { Grouped(n, '.') + [' ', EURO] }

  /** An amount with two decimals, as Spanish (`1.250,50`) or English (`1,250.50`) portals write it. */
  function Amount(euros: nat, cents: nat, group: char, point: char): string
    requires cents < 100
  {
    Grouped(euros, group) + ([point] + Pad(2, cents))
  }

  // ---------- Parsing ----------

  function TakeBody(s: string): string {
    if s == "" || !IsBody(s[0]) then "" else [s[0]] + TakeBody(s[1..])
  }

  /** The leftmost match of `[-+]?\d[\d.,\s]*`. */
  function FirstNumber(s: string): Option<string> {
    if s == "" then None
    else if IsSign(s[0]) && |s| > 1 && IsDigit(s[1]) then Some([s[0]] + TakeBody(s[1..]))
    else if IsDigit(s[0]) then Some(TakeBody(s))
    else FirstNumber(s[1..])
  }

  function RemoveSpaces(s: string): string {
    if s == "" then "" else (if IsSpace(s[0]) then "" else [s[0]]) + RemoveSpaces(s[1..])
  }

  function Remove(s: string, c: char): string {
    if s == "" then "" else (if s[0] == c then "" else [s[0]]) + Remove(s[1..], c)
  }

  function Replace(s: string, a: char, b: char): (r: string)
    ensures |r| == |s|
  {
    if s == "" then "" else [if s[0] == a then b else s[0]] + Replace(s[1..], a, b)
  }

  function Count(s: string, c: char): nat {
    if s == "" then 0 else (if s[0] == c then 1 else 0) + Count(s[1..], c)
  }

  /** `str.rfind`. */
  function LastIndex(s: string, c: char): (i: int)
    ensures -1 <= i < |s|
    ensures i == -1 <==> c !in s
  {
    if s == "" then -1 else if s[|s| - 1] == c then |s| - 1 else LastIndex(s[..|s| - 1], c)
  }

  /** One or two digits follow the last `c`. */
  predicate LooksDecimal(token: string, c: char) { |token| - 1 - LastIndex(token, c) in {1, 2} }

  function DecimalSeparator(token: string): Option<char> {
    if '.' in token && ',' in token then
      var last := if LastIndex(token, '.') > LastIndex(token, ',') then '.' else ',';
      if LooksDecimal(token, last) then Some(last) else None
    else if ',' in token then
      if Count(token, ',') == 1 && LooksDecimal(token, ',') then Some(',') else None
    else if '.' in token then
      if Count(token, '.') == 1 && LooksDecimal(token, '.') then Some('.') else None
    else None
  }

  function Normalized(token: string): string {
    match DecimalSeparator(token)
    case None => Remove(Remove(token, '.'), ',')
    case Some(point) => Replace(Remove(token, if point == '.' then ',' else '.'), point, '.')
  }

  /** A finite decimal: `unscaled / 10^scale` with a sign. */
  datatype Number = Number(negative: bool, unscaled: nat, scale: nat)

  function DigitValue(c: char): nat
    requires IsDigit(c)
  {
    (c - '0') as int
  }

  predicate AllDigits(s: string) { forall c :: c in s ==> IsDigit(c) }

  function Value(s: string): nat
    requires AllDigits(s)
  {
    if s == "" then 0 else Value(s[..|s| - 1]) * 10 + DigitValue(s[|s| - 1])
  }

  /** `Decimal(text)`: digits with at most one point. */
  function ParseDecimal(negative: bool, s: string): Option<Number> {
    var p := LastIndex(s, '.');
    if p == -1 then
      if s != "" && AllDigits(s) then Some(Number(negative, Value(s), 0)) else None
    else
      var whole, fraction := s[..p], s[p + 1..];
      if (whole != "" || fraction != "") && AllDigits(whole) && AllDigits(fraction) then
        Some(Number(negative, Value(whole) * Power10(|fraction|) + Value(fraction), |fraction|))
      else None
  }

  function DecimalNumber(text: string): Option<Number> {
    match FirstNumber(text)
    case None => None
    case Some(found) =>
      var token := RemoveSpaces(found);
      if token != "" && IsSign(token[0]) then ParseDecimal(token[0] == '-', Normalized(token[1..]))
      else ParseDecimal(false, Normalized(token))
  }

  datatype Error = InvalidOperation

  lemma PowerIsPositive(n: nat)
    ensures Power10(n) > 0
  {
  }

  /** Decimal results carry at most 28 digits. */
  const PRECISION: nat := 28

  function RoundHalfUp(unscaled: nat, scale: nat): nat {
    PowerIsPositive(scale);
    (2 * unscaled + Power10(scale)) / (2 * Power10(scale))
  }

  /** Parse to whole euros, half up. Rounding raises when the result needs more than 28 digits. */
  function NormalizeEuroPrice(text: string): Result<Option<nat>, Error> {
    match DecimalNumber(text)
    case None => Ok(None)
    case Some(number) =>
      if number.negative && number.unscaled > 0 then Ok(None)
      else
        var rounded := RoundHalfUp(number.unscaled, number.scale);
        if rounded >= Power10(PRECISION) then Raised(InvalidOperation) else Ok(Some(rounded))
  }
}
