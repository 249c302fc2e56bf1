/** Instants, and the two orders SQLite puts on their stored text.

    An `Instant` counts microseconds since 0001-01-01T00:00:00 UTC. Timestamps are stored as ISO
    text with a `Z` suffix and with the fraction left out when it is zero. `datetime(text)` keeps
    whole seconds; a bare comparison compares the characters. */
module Timestamps {

  type Instant = int

  const SECOND: int := 1_000_000
  const DAY_SECONDS: int := 86_400

  /** `datetime(x)`: the whole second an instant falls in. */
  function Second(t: Instant): int { t / SECOND }

  function Micros(t: Instant): nat { t % SECOND }

  /** The order of the stored text, in arithmetic: within one second a timestamp without a fraction
      sorts last, because `.` precedes `Z`. `TextOrder` proves it is the order of the characters. */
  predicate StoredBefore(s: Instant, t: Instant) {
    if Second(s) != Second(t) then Second(s) < Second(t)
    else Micros(s) != 0 && (Micros(t) == 0 || Micros(s) < Micros(t))
  }

  predicate StoredAtMost(s: Instant, t: Instant) { s == t || StoredBefore(s, t) }

  /** For a later instant the schema's `later >= earlier` fails exactly when both share a second and
      the earlier one is on the full second. */
  lemma LaterIsStoredAtMost(s: Instant, t: Instant)
    requires s <= t
    ensures StoredAtMost(s, t) <==> s == t || Micros(s) != 0 || Second(s) != Second(t)
  {
  }

  // ---------- The text itself ----------

  datatype Date = Date(year: nat, month: nat, day: nat)

  predicate IsLeap(year: nat) { year % 4 == 0 && (year % 100 != 0 || year % 400 == 0) }

  function DaysInMonth(year: nat, month: nat): nat {
    if month == 2 then (if IsLeap(year) then 29 else 28)
    else if month in {4, 6, 9, 11} then 30
    else 31
  }

  function NextDay(d: Date): Date {
    if d.day < DaysInMonth(d.year, d.month) then d.(day := d.day + 1)
    else if d.month < 12 then Date(d.year, d.month + 1, 1)
    else Date(d.year + 1, 1, 1)
  }

  /** The proleptic Gregorian date `n` days after 0001-01-01. */
  function DateOf(n: nat): (d: Date)
    ensures 1 <= d.month <= 12 && 1 <= d.day <= 31
  {
    if n == 0 then Date(1, 1, 1) else NextDay(DateOf(n - 1))
  }

  predicate DateBefore(a: Date, b: Date) {
    a.year < b.year || (a.year == b.year && (a.month < b.month || (a.month == b.month && a.day < b.day)))
  }

  lemma {:induction false} DateOfIsMonotone(m: nat, n: nat)
    requires m < n
    ensures DateBefore(DateOf(m), DateOf(n))
  {
    if m < n - 1 { DateOfIsMonotone(m, n - 1); }
  }

  lemma {:induction false} DaysPass(n: nat, d: Date, k: nat)
    requires DateOf(n) == d && d.day == 1 && 1 <= d.month <= 12 && k < DaysInMonth(d.year, d.month)
    ensures DateOf(n + k) == d.(day := 1 + k)
  {
    if k > 0 { DaysPass(n, d, k - 1); }
  }

  lemma MonthPasses(n: nat, year: nat, month: nat)
    requires DateOf(n) == Date(year, month, 1) && 1 <= month <= 12
    ensures DateOf(n + DaysInMonth(year, month)) == if month < 12 then Date(year, month + 1, 1) else Date(year + 1, 1, 1)
  {
    DaysPass(n, Date(year, month, 1), DaysInMonth(year, month) - 1);
  }

  function DaysBeforeMonth(year: nat, month: nat): nat
    requires 1 <= month <= 13
  {
    if month == 1 then 0 else DaysBeforeMonth(year, month - 1) + DaysInMonth(year, month - 1)
  }

  lemma {:induction false} MonthsPass(n: nat, year: nat, month: nat)
    requires DateOf(n) == Date(year, 1, 1) && 1 <= month <= 12
    ensures DateOf(n + DaysBeforeMonth(year, month)) == Date(year, month, 1)
  {
    if month > 1 {
      MonthsPass(n, year, month - 1);
      MonthPasses(n + DaysBeforeMonth(year, month - 1), year, month - 1);
    }
  }

  /** The calendar is the Gregorian one: a year begins after 365 days for each year before it, and a day
      for each fourth of them, but not for each hundredth, yet for each four-hundredth. */
  lemma {:induction false} YearsBegin(year: nat)
    requires year >= 1
    ensures YearStart(year) >= 0 && DateOf(YearStart(year)) == Date(year, 1, 1)
  {
    if year > 1 {
      var last := year - 1;
      YearsBegin(last);
      var n: nat := YearStart(last);
      MonthsPass(n, last, 12);
      MonthPasses(n + DaysBeforeMonth(last, 12), last, 12);
      YearLength(last);
      LeapDays(last);
    }
  }

  function YearStart(year: int): int { 365 * (year - 1) + (year - 1) / 4 - (year - 1) / 100 + (year - 1) / 400 }

  lemma LeapDays(year: nat)
    requires year >= 1
    ensures YearStart(year + 1) == YearStart(year) + (if IsLeap(year) then 366 else 365)
    ensures YearStart(year) >= 0
  {
    Fourths(year);
    Hundredths(year);
    FourHundredths(year);
  }

  lemma Fourths(n: nat)
    requires n >= 1
    ensures n / 4 == (n - 1) / 4 + (if n % 4 == 0 then 1 else 0)
  {
  }

  lemma Hundredths(n: nat)
    requires n >= 1
    ensures n / 100 == (n - 1) / 100 + (if n % 100 == 0 then 1 else 0)
    ensures n % 100 == 0 ==> n % 4 == 0
    ensures 0 <= (n - 1) / 100 <= n - 1
  {
    if n % 100 == 0 { MultipleOfFour(n, n / 100); }
  }

  lemma MultipleOfFour(n: nat, q: nat)
    requires n == 100 * q
    ensures n % 4 == 0
  {
    assert n == 4 * (25 * q);
  }

  lemma FourHundredths(n: nat)
    requires n >= 1
    ensures n / 400 == (n - 1) / 400 + (if n % 400 == 0 then 1 else 0)
    ensures n % 400 == 0 ==> n % 100 == 0
  {
  }

  lemma YearLength(year: nat)
    ensures DaysBeforeMonth(year, 12) + DaysInMonth(year, 12) == if IsLeap(year) then 366 else 365
  {
    assert DaysBeforeMonth(year, 1) == 0;
    assert DaysBeforeMonth(year, 3) == 31 + DaysInMonth(year, 2);
    assert DaysBeforeMonth(year, 5) == DaysBeforeMonth(year, 3) + 31 + 30;
    assert DaysBeforeMonth(year, 7) == DaysBeforeMonth(year, 5) + 31 + 30;
    assert DaysBeforeMonth(year, 9) == DaysBeforeMonth(year, 7) + 31 + 31;
    assert DaysBeforeMonth(year, 11) == DaysBeforeMonth(year, 9) + 30 + 31;
    assert DaysBeforeMonth(year, 12) == DaysBeforeMonth(year, 11) + 30;
  }

  function Digit(n: nat): char
    requires n < 10
  {
    '0' + n as char
  }

  /** `n` in exactly `width` decimal digits. */
  function Pad(width: nat, n: nat): (s: string)
    ensures |s| == width
  {
    if width == 0 then "" else Pad(width - 1, n / 10) + [Digit(n % 10)]
  }

  /** Three fields with a separator: a date, or a time of day. */
  function Triple(width: nat, separator: char, a: nat, b: nat, c: nat): (s: string)
    ensures |s| == width + 6
  {
    Pad(width, a) + ([separator] + (Pad(2, b) + ([separator] + Pad(2, c))))
  }

  function DateText(d: Date): (s: string)
    ensures |s| == 10
  {
    Triple(4, '-', d.year, d.month, d.day)
  }

  function ClockText(second: nat): (s: string)
    ensures |s| == 8
  {
    Triple(2, ':', second / 3600, second / 60 % 60, second % 60)
  }

  /** Date and time of day down to the second, always 19 characters. */
  function SecondText(second: nat): (s: string)
    ensures |s| == 19
  {
    DateText(DateOf(second / DAY_SECONDS)) + ("T" + ClockText(second % DAY_SECONDS))
  }

  function FractionText(micros: nat): string {
    if micros == 0 then "Z" else "." + (Pad(6, micros) + "Z")
  }

  /** `isoformat()` with `+00:00` replaced by `Z`. */
  function IsoText(t: nat): string { SecondText(t / SECOND) + FractionText(t % SECOND) }

  /** The instants a `datetime` can hold: the year has at most four digits. */
  predicate Representable(t: Instant) {
    t >= 0 && DateOf(t / SECOND / DAY_SECONDS).year <= 9999
  }

  /** SQLite's BINARY collation. */
  predicate TextLess(a: string, b: string) {
    b != "" && (a == "" || a[0] < b[0] || (a[0] == b[0] && TextLess(a[1..], b[1..])))
  }

  lemma {:induction false} TextLessIrreflexive(a: string)
    ensures !TextLess(a, a)
  {
    if a != "" { TextLessIrreflexive(a[1..]); }
  }

  lemma {:induction false} TextLessAppend(a: string, b: string, x: string, y: string)
    requires |a| == |b| && TextLess(a, b)
    ensures TextLess(a + x, b + y)
    decreases |a|
  {
    assert (a + x)[0] == a[0] && (b + y)[0] == b[0];
    if a[0] == b[0] {
      TextLessAppend(a[1..], b[1..], x, y);
      assert (a + x)[1..] == a[1..] + x && (b + y)[1..] == b[1..] + y;
    }
  }

  lemma {:induction false} TextLessPrefix(p: string, a: string, b: string)
    ensures TextLess(p + a, p + b) == TextLess(a, b)
  {
    if p == "" {
      assert p + a == a && p + b == b;
    } else {
      TextLessPrefix(p[1..], a, b);
      assert (p + a)[1..] == p[1..] + a && (p + b)[1..] == p[1..] + b;
      assert (p + a)[0] == (p + b)[0];
    }
  }

  function Power10(n: nat): nat { if n == 0 then 1 else 10 * Power10(n - 1) }

  lemma {:induction false} PadIsMonotone(width: nat, m: nat, n: nat)
    requires m < n < Power10(width)
    ensures TextLess(Pad(width, m), Pad(width, n))
  {
    if m / 10 < n / 10 {
      PadIsMonotone(width - 1, m / 10, n / 10);
      TextLessAppend(Pad(width - 1, m / 10), Pad(width - 1, n / 10), [Digit(m % 10)], [Digit(n % 10)]);
    } else {
      TextLessPrefix(Pad(width - 1, m / 10), [Digit(m % 10)], [Digit(n % 10)]);
    }
  }

  /** One fixed-width field followed by the rest of the text: the field decides, or the rest does. */
  lemma FieldDecides(width: nat, m: nat, n: nat, x: string, y: string)
    requires m < Power10(width) && n < Power10(width)
    ensures m < n ==> TextLess(Pad(width, m) + x, Pad(width, n) + y)
    ensures m == n ==> TextLess(Pad(width, m) + x, Pad(width, n) + y) == TextLess(x, y)
  {
    if m < n {
      PadIsMonotone(width, m, n);
      TextLessAppend(Pad(width, m), Pad(width, n), x, y);
    }
    if m == n { TextLessPrefix(Pad(width, m), x, y); }
  }

  lemma PowersOf10()
    ensures Power10(2) == 100 && Power10(4) == 10_000 && Power10(6) == 1_000_000
  {
    assert Power10(3) == 10 * Power10(2);
    assert Power10(5) == 10 * Power10(4);
  }

  lemma TripleIsMonotone(width: nat, separator: char, a: nat, b: nat, c: nat, a': nat, b': nat, c': nat)
    requires a < Power10(width) && a' < Power10(width) && b < 100 && b' < 100 && c < 100 && c' < 100
    requires a < a' || (a == a' && (b < b' || (b == b' && c < c')))
    ensures TextLess(Triple(width, separator, a, b, c), Triple(width, separator, a', b', c'))
  {
    PowersOf10();
    var z, z' := [separator] + Pad(2, c), [separator] + Pad(2, c');
    var y, y' := Pad(2, b) + z, Pad(2, b') + z';
    FieldDecides(width, a, a', [separator] + y, [separator] + y');
    TextLessPrefix([separator], y, y');
    FieldDecides(2, b, b', z, z');
    TextLessPrefix([separator], Pad(2, c), Pad(2, c'));
    if c < c' { PadIsMonotone(2, c, c'); }
  }

  lemma ClockTextIsMonotone(m: nat, n: nat)
    requires m < n < DAY_SECONDS
    ensures TextLess(ClockText(m), ClockText(n))
  {
    PowersOf10();
    assert m == m / 3600 * 3600 + m / 60 % 60 * 60 + m % 60;
    assert n == n / 3600 * 3600 + n / 60 % 60 * 60 + n % 60;
    TripleIsMonotone(2, ':', m / 3600, m / 60 % 60, m % 60, n / 3600, n / 60 % 60, n % 60);
  }

  lemma SecondTextIsMonotone(m: nat, n: nat)
    requires m < n && DateOf(n / DAY_SECONDS).year <= 9999
    ensures TextLess(SecondText(m), SecondText(n))
  {
    var dm, dn := m / DAY_SECONDS, n / DAY_SECONDS;
    var cm, cn := "T" + ClockText(m % DAY_SECONDS), "T" + ClockText(n % DAY_SECONDS);
    if dm < dn {
      DateOfIsMonotone(dm, dn);
      PowersOf10();
      var m, n := DateOf(dm), DateOf(dn);
      TripleIsMonotone(4, '-', m.year, m.month, m.day, n.year, n.month, n.day);
      TextLessAppend(DateText(DateOf(dm)), DateText(DateOf(dn)), cm, cn);
    } else {
      ClockTextIsMonotone(m % DAY_SECONDS, n % DAY_SECONDS);
      TextLessPrefix("T", ClockText(m % DAY_SECONDS), ClockText(n % DAY_SECONDS));
      TextLessPrefix(DateText(DateOf(dm)), cm, cn);
    }
  }

  lemma FractionTextOrder(m: nat, n: nat)
    requires m < SECOND && n < SECOND
    ensures TextLess(FractionText(m), FractionText(n)) == (m != 0 && (n == 0 || m < n))
  {
    PowersOf10();
    if m != 0 && n != 0 {
      TextLessPrefix(".", Pad(6, m) + "Z", Pad(6, n) + "Z");
      FieldDecides(6, m, n, "Z", "Z");
      if n < m {
        FieldDecides(6, n, m, "Z", "Z");
        TextLessAsymmetric(Pad(6, n) + "Z", Pad(6, m) + "Z");
      }
    }
  }

  lemma {:induction false} TextLessAsymmetric(a: string, b: string)
    requires TextLess(a, b)
    ensures !TextLess(b, a)
  {
    if a != "" && a[0] == b[0] { TextLessAsymmetric(a[1..], b[1..]); }
  }

  /** The characters of two stored timestamps compare exactly as `StoredBefore` says. */
  lemma TextOrder(s: nat, t: nat)
    requires Representable(s) && Representable(t)
    ensures TextLess(IsoText(s), IsoText(t)) <==> StoredBefore(s, t)
  {
    var ms, mt := s / SECOND, t / SECOND;
    var fs, ft := FractionText(s % SECOND), FractionText(t % SECOND);
    if ms < mt {
      SecondTextIsMonotone(ms, mt);
      TextLessAppend(SecondText(ms), SecondText(mt), fs, ft);
    } else if mt < ms {
      SecondTextIsMonotone(mt, ms);
      TextLessAppend(SecondText(mt), SecondText(ms), ft, fs);
      TextLessAsymmetric(IsoText(t), IsoText(s));
    } else {
      FractionTextOrder(s % SECOND, t % SECOND);
      TextLessPrefix(SecondText(ms), fs, ft);
    }
  }

  /** Different instants are stored as different texts, so `observed_at = ?` compares instants. */
  lemma TextIsInjective(s: nat, t: nat)
    requires Representable(s) && Representable(t)
    ensures IsoText(s) == IsoText(t) <==> s == t
  {
    TextOrder(s, t);
    TextOrder(t, s);
    TextLessIrreflexive(IsoText(s));
  }

  /** Text order departs from time order exactly when both instants share a second and only the
      earlier one has a zero fraction; then it is reversed. */
  lemma TextOrderIsTimeOrderExcept(s: nat, t: nat)
    requires Representable(s) && Representable(t) && s < t
    ensures TextLess(IsoText(s), IsoText(t)) <==> !(Second(s) == Second(t) && Micros(s) == 0)
    ensures TextLess(IsoText(t), IsoText(s)) <==> (Second(s) == Second(t) && Micros(s) == 0)
  {
    TextOrder(s, t);
    TextOrder(t, s);
  }
}
