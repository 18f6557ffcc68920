/** The accounts database stores UTC instants as ISO 8601 strings and compares
    those strings. The six-digit fraction is left out when it is zero, so that
    string order is chronological order needs a proof.
 */
module Timestamps {
  import T = Text

  /** A UTC instant with microsecond resolution. */
  datatype Instant = Instant(year: nat, month: nat, day: nat, hour: nat, minute: nat, second: nat, micro: nat)

  predicate LeapYear(year: nat) {
    year % 4 == 0 && (year % 100 != 0 || year % 400 == 0)
  }

  function DaysInMonth(year: nat, month: nat): nat {
    if month == 2 then (if LeapYear(year) then 29 else 28)
    else if month == 4 || month == 6 || month == 9 || month == 11 then 30
    else 31
  }

  predicate Valid(t: Instant) {
    && 1 <= t.year <= 9999 && 1 <= t.month <= 12 && 1 <= t.day <= DaysInMonth(t.year, t.month)
    && t.hour < 24 && t.minute < 60 && t.second < 60 && t.micro < 1_000_000
  }

  /* Elapsed time: the independent meaning of "earlier". */

  function DaysBeforeYear(year: nat): nat {
    if year <= 1 then 0 else DaysBeforeYear(year - 1) + (if LeapYear(year - 1) then 366 else 365)
  }

  function DaysBeforeMonth(year: nat, month: nat): nat {
    if month <= 1 then 0 else DaysBeforeMonth(year, month - 1) + DaysInMonth(year, month - 1)
  }

  function DayNumber(t: Instant): nat {
    DaysBeforeYear(t.year) + DaysBeforeMonth(t.year, t.month) + t.day
  }

  function SecondOfDay(t: Instant): nat {
    (t.hour * 60 + t.minute) * 60 + t.second
  }

  /** Microseconds since the start of the calendar. */
  function Elapsed(t: Instant): nat {
    (DayNumber(t) * 86400 + SecondOfDay(t)) * 1_000_000 + t.micro
  }

  /* The stored text. */

  function Digit(n: nat): char
    requires n < 10
  {
    '0' + n as char
  }

  /** `n` in decimal, zero-padded to `width` places. */
  function Padded(width: nat, n: nat): string {
    if width == 0 then "" else Padded(width - 1, n / 10) + [Digit(n % 10)]
  }

  function Fraction(micro: nat): string {
    if micro == 0 then "" else "." + Padded(6, micro)
  }

  /** `datetime.isoformat()` of a UTC instant, field by field. */
  function IsoFormat(t: Instant): string { Padded(4, t.year) + MonthText(t) }
  function MonthText(t: Instant): string { "-" + Padded(2, t.month) + DayText(t) }
  function DayText(t: Instant): string { "-" + Padded(2, t.day) + HourText(t) }
  function HourText(t: Instant): string { "T" + Padded(2, t.hour) + MinuteText(t) }
  function MinuteText(t: Instant): string { ":" + Padded(2, t.minute) + SecondText(t) }
  function SecondText(t: Instant): string { ":" + Padded(2, t.second) + (Fraction(t.micro) + "+00:00") }

  /** How SQLite orders text: byte by byte, a proper prefix first. */
  predicate TextLess(a: string, b: string) {
    b != [] && (a == [] || a[0] < b[0] || (a[0] == b[0] && TextLess(a[1..], b[1..])))
  }

  predicate TextAtLeast(a: string, b: string) {
    !TextLess(a, b)
  }

  /* Comparing strings piece by piece. */

  lemma {:induction false} TextLessSkipsCommonPrefix(p: string, a: string, b: string)
    ensures TextLess(p + a, p + b) == TextLess(a, b)
  {
    if p == [] {
      assert p + a == a && p + b == b;
    } else {
      assert (p + a)[1..] == p[1..] + a && (p + b)[1..] == p[1..] + b;
      TextLessSkipsCommonPrefix(p[1..], a, b);
    }
  }

  lemma {:induction false} TextLessDecidedByHeads(p: string, q: string, a: string, b: string)
    requires |p| == |q| && p != q
    ensures TextLess(p + a, q + b) == TextLess(p, q)
    ensures TextLess(p, q) != TextLess(q, p)
  {
    assert (p + a)[1..] == p[1..] + a && (q + b)[1..] == q[1..] + b;
    if p[0] == q[0] {
      assert p == [p[0]] + p[1..] && q == [q[0]] + q[1..];
      TextLessDecidedByHeads(p[1..], q[1..], a, b);
    }
  }

  function Power10(width: nat): nat {
    if width == 0 then 1 else 10 * Power10(width - 1)
  }

  lemma {:induction false} PaddedLength(width: nat, n: nat)
    ensures |Padded(width, n)| == width
  {
    if width > 0 {
      PaddedLength(width - 1, n / 10);
    }
  }

  /** Fixed-width decimals order like the numbers they denote. */
  lemma {:induction false} PaddedOrder(width: nat, m: nat, n: nat)
    requires m < n < Power10(width)
    ensures TextLess(Padded(width, m), Padded(width, n))
    ensures Padded(width, m) != Padded(width, n)
  {
    PaddedLength(width - 1, m / 10);
    PaddedLength(width - 1, n / 10);
    var a, b := Padded(width - 1, m / 10), Padded(width - 1, n / 10);
    if m / 10 == n / 10 {
      TextLessSkipsCommonPrefix(a, [Digit(m % 10)], [Digit(n % 10)]);
    } else {
      PaddedOrder(width - 1, m / 10, n / 10);
      TextLessDecidedByHeads(a, b, [Digit(m % 10)], [Digit(n % 10)]);
    }
    assert Padded(width, m)[..width - 1] == a && Padded(width, n)[..width - 1] == b;
  }

  /** Text that starts with a padded number: a difference in the number
      decides, otherwise the rest does. */
  lemma FieldOrder(width: nat, m: nat, n: nat, a: string, b: string)
    requires m < Power10(width) && n < Power10(width)
    ensures TextLess(Padded(width, m) + a, Padded(width, n) + b) <==> m < n || (m == n && TextLess(a, b))
  {
    if m == n {
      TextLessSkipsCommonPrefix(Padded(width, m), a, b);
    } else {
      PaddedLength(width, m);
      PaddedLength(width, n);
      if m < n { PaddedOrder(width, m, n); } else { PaddedOrder(width, n, m); }
      TextLessDecidedByHeads(Padded(width, m), Padded(width, n), a, b);
    }
  }

  lemma SeparatedFieldOrder(separator: char, width: nat, m: nat, n: nat, a: string, b: string)
    requires m < Power10(width) && n < Power10(width)
    ensures TextLess([separator] + Padded(width, m) + a, [separator] + Padded(width, n) + b)
       <==> m < n || (m == n && TextLess(a, b))
  {
    FieldOrder(width, m, n, a, b);
    assert [separator] + Padded(width, m) + a == [separator] + (Padded(width, m) + a);
    assert [separator] + Padded(width, n) + b == [separator] + (Padded(width, n) + b);
    TextLessSkipsCommonPrefix([separator], Padded(width, m) + a, Padded(width, n) + b);
  }

  lemma {:induction false} TextLessIrreflexive(a: string)
    ensures !TextLess(a, a)
  {
    if a != [] {
      TextLessIrreflexive(a[1..]);
    }
  }

  /** The optional fraction sorts correctly because '+' precedes '.'. */
  lemma FractionOrder(m: nat, n: nat)
    requires m < 1_000_000 && n < 1_000_000
    ensures TextLess(Fraction(m) + "+00:00", Fraction(n) + "+00:00") <==> m < n
  {
    TextLessIrreflexive("+00:00");
    assert Power10(6) == 1_000_000 by {
      assert Power10(3) == 1000;
    }
    if m > 0 && n > 0 {
      SeparatedFieldOrder('.', 6, m, n, "+00:00", "+00:00");
    } else if m == 0 {
      assert Fraction(0) + "+00:00" == "+00:00";
    } else {
      assert Fraction(0) + "+00:00" == "+00:00";
    }
  }

  ghost predicate TimeLess(a: Instant, b: Instant) {
    || a.hour < b.hour
    || (a.hour == b.hour && (a.minute < b.minute
        || (a.minute == b.minute && (a.second < b.second || (a.second == b.second && a.micro < b.micro)))))
  }

  ghost predicate DateLess(a: Instant, b: Instant) {
    a.year < b.year || (a.year == b.year && (a.month < b.month || (a.month == b.month && a.day < b.day)))
  }

  ghost predicate SameDate(a: Instant, b: Instant) {
    a.year == b.year && a.month == b.month && a.day == b.day
  }

  lemma TimeTextOrder(a: Instant, b: Instant)
    requires Valid(a) && Valid(b)
    ensures TextLess(HourText(a), HourText(b)) <==> TimeLess(a, b)
  {
    assert Power10(2) == 100;
    FractionOrder(a.micro, b.micro);
    SeparatedFieldOrder(':', 2, a.second, b.second, Fraction(a.micro) + "+00:00", Fraction(b.micro) + "+00:00");
    SeparatedFieldOrder(':', 2, a.minute, b.minute, SecondText(a), SecondText(b));
    SeparatedFieldOrder('T', 2, a.hour, b.hour, MinuteText(a), MinuteText(b));
  }

  lemma DateTextOrder(a: Instant, b: Instant)
    requires Valid(a) && Valid(b)
    ensures TextLess(IsoFormat(a), IsoFormat(b)) <==> DateLess(a, b) || (SameDate(a, b) && TimeLess(a, b))
  {
    assert Power10(2) == 100 && Power10(4) == 100 * Power10(2);
    TimeTextOrder(a, b);
    SeparatedFieldOrder('-', 2, a.day, b.day, HourText(a), HourText(b));
    SeparatedFieldOrder('-', 2, a.month, b.month, DayText(a), DayText(b));
    FieldOrder(4, a.year, b.year, MonthText(a), MonthText(b));
  }

  /* The calendar counts days without gaps or overlaps. */

  lemma {:induction false} MonthsAddUp(year: nat, month: nat, later: nat)
    requires 1 <= month < later <= 13
    ensures DaysBeforeMonth(year, month) + DaysInMonth(year, month) <= DaysBeforeMonth(year, later)
  {
    if month + 1 < later {
      MonthsAddUp(year, month, later - 1);
    }
  }

  lemma YearIsTwelveMonths(year: nat)
    ensures DaysBeforeMonth(year, 13) == if LeapYear(year) then 366 else 365
  {
    assert DaysBeforeMonth(year, 2) == 31;
    assert DaysBeforeMonth(year, 4) == 62 + DaysInMonth(year, 2);
    assert DaysBeforeMonth(year, 6) == DaysBeforeMonth(year, 4) + 61;
    assert DaysBeforeMonth(year, 8) == DaysBeforeMonth(year, 6) + 61;
    assert DaysBeforeMonth(year, 10) == DaysBeforeMonth(year, 8) + 61;
    assert DaysBeforeMonth(year, 12) == DaysBeforeMonth(year, 10) + 61;
  }

  lemma {:induction false} YearsAddUp(year: nat, later: nat)
    requires 1 <= year < later
    ensures DaysBeforeYear(year) + DaysBeforeMonth(year, 13) <= DaysBeforeYear(later)
  {
    YearIsTwelveMonths(year);
    if year + 1 < later {
      YearsAddUp(year, later - 1);
    }
  }

  lemma EarlierDateEarlierDay(a: Instant, b: Instant)
    requires Valid(a) && Valid(b) && DateLess(a, b)
    ensures DayNumber(a) < DayNumber(b)
  {
    if a.year < b.year {
      YearsAddUp(a.year, b.year);
      MonthsAddUp(a.year, a.month, 13);
    } else if a.month < b.month {
      MonthsAddUp(a.year, a.month, b.month);
    }
  }

  lemma EarlierElapsed(a: Instant, b: Instant)
    requires Valid(a) && Valid(b)
    requires DateLess(a, b) || (SameDate(a, b) && TimeLess(a, b))
    ensures Elapsed(a) < Elapsed(b)
  {
    if DateLess(a, b) {
      EarlierDateEarlierDay(a, b);
    }
  }

  /** Text order of stored timestamps is exactly chronological order. */
  lemma TextOrderIsChronological(a: Instant, b: Instant)
    requires Valid(a) && Valid(b)
    ensures TextLess(IsoFormat(a), IsoFormat(b)) <==> Elapsed(a) < Elapsed(b)
    ensures TextAtLeast(IsoFormat(a), IsoFormat(b)) <==> Elapsed(a) >= Elapsed(b)
    ensures IsoFormat(a) == IsoFormat(b) <==> Elapsed(a) == Elapsed(b)
  {
    DateTextOrder(a, b);
    DateTextOrder(b, a);
    TextLessIrreflexive(IsoFormat(a));
    if DateLess(a, b) || (SameDate(a, b) && TimeLess(a, b)) {
      EarlierElapsed(a, b);
    } else if DateLess(b, a) || (SameDate(b, a) && TimeLess(b, a)) {
      EarlierElapsed(b, a);
    } else {
      assert a == b;
    }
  }

  /* What the text says. */

  lemma {:induction false} PaddedReads(width: nat, n: nat)
    requires n < Power10(width)
    ensures |Padded(width, n)| == width
    ensures (forall i :: 0 <= i < width ==> T.IsDigit(Padded(width, n)[i])) && T.Value(Padded(width, n)) == n
  {
    if width > 0 {
      PaddedReads(width - 1, n / 10);
      var front := Padded(width - 1, n / 10);
      assert Padded(width, n)[..width - 1] == front;
      assert T.IsDigit(Digit(n % 10));
    }
  }

  /** The number a stretch of digits stands for. */
  ghost predicate Says(text: string, from: nat, to: nat, n: nat) {
    && from <= to <= |text|
    && (forall i :: 0 <= i < |text[from..to]| ==> T.IsDigit(text[from..to][i])) && T.Value(text[from..to]) == n
  }

  lemma FieldSays(text: string, from: nat, width: nat, n: nat, before: string, behind: string)
    requires n < Power10(width) && |before| == from && text == before + Padded(width, n) + behind
    ensures from + width <= |text| && Says(text, from, from + width, n) && text[from + width..] == behind
  {
    PaddedReads(width, n);
    assert text[from..from + width] == Padded(width, n);
  }

  lemma OneMark(text: string, at: nat, mark: string, field: string, behind: string)
    requires |mark| == 1 && at <= |text| && text[at..] == mark + field + behind
    ensures |text| > at && text[at] == mark[0] && text == text[..at + 1] + field + behind
  {
    assert text == text[..at] + text[at..];
    assert text[..at + 1] == text[..at] + mark;
  }

  lemma FractionSays(text: string, micro: nat)
    requires |text| >= 19 && micro < 1_000_000 && text[19..] == Fraction(micro) + "+00:00"
    ensures micro == 0 ==> text[19..] == "+00:00"
    ensures micro > 0 ==> |text| == 32 && text[19] == '.' && Says(text, 20, 26, micro) && text[26..] == "+00:00"
  {
    if micro > 0 {
      assert text[19..] == "." + Padded(6, micro) + "+00:00";
      OneMark(text, 19, ".", Padded(6, micro), "+00:00");
      assert Power10(6) == 1_000_000;
      FieldSays(text, 20, 6, micro, text[..20], "+00:00");
    }
  }

  /** The text of an instant: its numbers, zero-padded, each in its place and with the
      marks of section 5.6 of RFC 3339 in between; the fraction only if there is one. */
  lemma IsoReads(t: Instant)
    requires Valid(t)
    ensures var s := IsoFormat(t);
            && |s| >= 19 && s[4] == '-' && s[7] == '-' && s[10] == 'T' && s[13] == ':' && s[16] == ':'
            && Says(s, 0, 4, t.year) && Says(s, 5, 7, t.month) && Says(s, 8, 10, t.day)
            && Says(s, 11, 13, t.hour) && Says(s, 14, 16, t.minute) && Says(s, 17, 19, t.second)
            && (t.micro == 0 ==> s[19..] == "+00:00")
            && (t.micro > 0 ==> s[19] == '.' && Says(s, 20, 26, t.micro) && s[26..] == "+00:00")
  {
    var s := IsoFormat(t);
    Widths(t);
    assert s == "" + Padded(4, t.year) + MonthText(t);
    FieldSays(s, 0, 4, t.year, "", MonthText(t));
    OneMark(s, 4, "-", Padded(2, t.month), DayText(t));
    FieldSays(s, 5, 2, t.month, s[..5], DayText(t));
    OneMark(s, 7, "-", Padded(2, t.day), HourText(t));
    FieldSays(s, 8, 2, t.day, s[..8], HourText(t));
    OneMark(s, 10, "T", Padded(2, t.hour), MinuteText(t));
    FieldSays(s, 11, 2, t.hour, s[..11], MinuteText(t));
    OneMark(s, 13, ":", Padded(2, t.minute), SecondText(t));
    FieldSays(s, 14, 2, t.minute, s[..14], SecondText(t));
    OneMark(s, 16, ":", Padded(2, t.second), Fraction(t.micro) + "+00:00");
    FieldSays(s, 17, 2, t.second, s[..17], Fraction(t.micro) + "+00:00");
    FractionSays(s, t.micro);
  }

  lemma Widths(t: Instant)
    requires Valid(t)
    ensures t.year < Power10(4) && t.month < Power10(2) && t.day < Power10(2)
    ensures t.hour < Power10(2) && t.minute < Power10(2) && t.second < Power10(2)
  {
    assert Power10(4) == 10000 && Power10(2) == 100;
  }
}
