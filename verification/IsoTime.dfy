/** The store's only time format. The store compares timestamps as text; this module shows
    that for UTC instants text order is time order, and that the text reads back. */
module IsoTime {
  import opened Text

  datatype DateTime = DateTime(
    year: nat, month: nat, day: nat, hour: nat, minute: nat, second: nat, micro: nat)

  // -- The proleptic Gregorian calendar ----------------------------------------------------

  predicate IsLeap(y: nat) {
    y % 4 == 0 && (y % 100 != 0 || y % 400 == 0)
  }

  function DaysIn(y: nat, m: nat): nat {
    if m == 2 then (if IsLeap(y) then 29 else 28)
    else if m == 4 || m == 6 || m == 9 || m == 11 then 30
    else 31
  }

  predicate Valid(d: DateTime) {
    && 1 <= d.year <= 9999 && 1 <= d.month <= 12 && 1 <= d.day <= DaysIn(d.year, d.month)
    && d.hour < 24 && d.minute < 60 && d.second < 60 && d.micro < 1000000
  }

  function DaysBeforeYear(y: nat): nat
    requires y >= 1
  {
    (y - 1) * 365 + (y - 1) / 4 - (y - 1) / 100 + (y - 1) / 400
  }

  function DaysBeforeMonth(y: nat, m: nat): nat
    requires 1 <= m <= 13
  {
    if m == 1 then 0 else DaysBeforeMonth(y, m - 1) + DaysIn(y, m - 1)
  }

  function Ordinal(d: DateTime): nat
    requires Valid(d)
  {
    DaysBeforeYear(d.year) + DaysBeforeMonth(d.year, d.month) + d.day
  }

  const DAY: nat := 86400000000

  function OfDay(d: DateTime): nat {
    ((d.hour * 60 + d.minute) * 60 + d.second) * 1000000 + d.micro
  }

  /** The instant: microseconds since the day before 0001-01-01. */
  function Micros(d: DateTime): nat
    requires Valid(d)
  {
    Ordinal(d) * DAY + OfDay(d)
  }

  function DaysInYear(y: nat): nat {
    if IsLeap(y) then 366 else 365
  }

  lemma YearStep(y: nat)
    requires y >= 1
    ensures DaysBeforeYear(y + 1) == DaysBeforeYear(y) + DaysInYear(y)
  {
    Quarter(y);
    Century(y);
    FourCenturies(y);
    Multiples(y);
  }

  lemma Multiples(y: nat)
    ensures y % 400 == 0 ==> y % 100 == 0
    ensures y % 100 == 0 ==> y % 4 == 0
  {
    var q, r := y / 400, y / 100;
    assert y % 400 == 0 ==> y == 100 * (4 * q);
    assert y % 100 == 0 ==> y == 4 * (25 * r);
  }

  lemma Quarter(y: nat)
    requires y >= 1
    ensures y / 4 == (y - 1) / 4 + (if y % 4 == 0 then 1 else 0)
  {
  }

  lemma Century(y: nat)
    requires y >= 1
    ensures y / 100 == (y - 1) / 100 + (if y % 100 == 0 then 1 else 0)
  {
  }

  lemma FourCenturies(y: nat)
    requires y >= 1
    ensures y / 400 == (y - 1) / 400 + (if y % 400 == 0 then 1 else 0)
  {
  }

  lemma {:induction false} YearsApart(a: nat, b: nat)
    requires 1 <= a < b
    ensures DaysBeforeYear(a) + DaysInYear(a) <= DaysBeforeYear(b)
    decreases b
  {
    YearStep(b - 1);
    YearStep(a);
    if a < b - 1 {
      YearsApart(a, b - 1);
    }
  }

  lemma {:induction false} MonthsApart(y: nat, m: nat, n: nat)
    requires 1 <= m < n <= 13
    ensures DaysBeforeMonth(y, m) + DaysIn(y, m) <= DaysBeforeMonth(y, n)
    decreases n
  {
    if m < n - 1 {
      MonthsApart(y, m, n - 1);
    }
  }

  lemma {:induction false} YearHolds(y: nat)
    ensures DaysBeforeMonth(y, 13) == DaysInYear(y)
  {
    var leap := if IsLeap(y) then 1 else 0;
    assert DaysBeforeMonth(y, 2) == 31;
    assert DaysBeforeMonth(y, 3) == 59 + leap;
    assert DaysBeforeMonth(y, 4) == 90 + leap;
    assert DaysBeforeMonth(y, 5) == 120 + leap;
    assert DaysBeforeMonth(y, 6) == 151 + leap;
    assert DaysBeforeMonth(y, 7) == 181 + leap;
    assert DaysBeforeMonth(y, 8) == 212 + leap;
    assert DaysBeforeMonth(y, 9) == 243 + leap;
    assert DaysBeforeMonth(y, 10) == 273 + leap;
    assert DaysBeforeMonth(y, 11) == 304 + leap;
    assert DaysBeforeMonth(y, 12) == 334 + leap;
  }

  // -- Field order is time order -------------------------------------------------------------

  predicate DateLess(a: DateTime, b: DateTime) {
    a.year < b.year || (a.year == b.year && (a.month < b.month || (a.month == b.month && a.day < b.day)))
  }

  predicate SameDate(a: DateTime, b: DateTime) {
    a.year == b.year && a.month == b.month && a.day == b.day
  }

  predicate TimeLess(a: DateTime, b: DateTime) {
    a.hour < b.hour || (a.hour == b.hour && (a.minute < b.minute || (a.minute == b.minute
      && (a.second < b.second || (a.second == b.second && a.micro < b.micro)))))
  }

  predicate FieldLess(a: DateTime, b: DateTime) {
    DateLess(a, b) || (SameDate(a, b) && TimeLess(a, b))
  }

  lemma OrdinalOrder(a: DateTime, b: DateTime)
    requires Valid(a) && Valid(b) && DateLess(a, b)
    ensures Ordinal(a) < Ordinal(b)
  {
    if a.year < b.year {
      YearsApart(a.year, b.year);
      MonthsApart(a.year, a.month, 13);
      YearHolds(a.year);
    } else if a.month < b.month {
      MonthsApart(a.year, a.month, b.month);
    }
  }

  lemma FieldOrder(a: DateTime, b: DateTime)
    requires Valid(a) && Valid(b) && FieldLess(a, b)
    ensures Micros(a) < Micros(b)
  {
    WithinDay(a);
    WithinDay(b);
    if DateLess(a, b) {
      OrdinalOrder(a, b);
      DaysApart(Ordinal(a), Ordinal(b));
    } else {
      SameDayOrder(a, b);
    }
  }

  lemma WithinDay(d: DateTime)
    requires Valid(d)
    ensures OfDay(d) < DAY
  {
  }

  lemma DaysApart(m: nat, n: nat)
    requires m < n
    ensures m * DAY + DAY <= n * DAY
  {
  }

  lemma SameDayOrder(a: DateTime, b: DateTime)
    requires Valid(a) && Valid(b) && TimeLess(a, b)
    ensures OfDay(a) < OfDay(b)
  {
  }

  lemma FieldOrderExact(a: DateTime, b: DateTime)
    requires Valid(a) && Valid(b)
    ensures FieldLess(a, b) <==> Micros(a) < Micros(b)
    ensures a == b <==> Micros(a) == Micros(b)
  {
    if FieldLess(a, b) {
      FieldOrder(a, b);
    } else if FieldLess(b, a) {
      FieldOrder(b, a);
    } else {
      assert a == b;
    }
  }

  // -- The text --------------------------------------------------------------------------------

  function DigitChar(n: nat): char
    requires n < 10
  {
    ('0' as int + n) as char
  }

  function Pow10(k: nat): nat {
    if k == 0 then 1 else 10 * Pow10(k - 1)
  }

  /** `n` in exactly `k` digits. */
  function Pad(n: nat, k: nat): (s: string)
    ensures |s| == k
  {
    if k == 0 then "" else Pad(n / 10, k - 1) + [DigitChar(n % 10)]
  }

  /** The fraction is left out when it is zero. */
  function Fraction(micro: nat): string {
    if micro == 0 then "" else "." + Pad(micro, 6)
  }

  /** `datetime.isoformat()` of a UTC datetime. */
  function Iso(d: DateTime): string {
    Pad(d.year, 4) + ("-" + (Pad(d.month, 2) + ("-" + (Pad(d.day, 2) + ("T" +
      (Pad(d.hour, 2) + (":" + (Pad(d.minute, 2) + (":" + (Pad(d.second, 2) +
      (Fraction(d.micro) + "+00:00")))))))))))
  }

  /** The text comparison of Python and of SQLite: by code point, a prefix first. */
  predicate LexLess(a: string, b: string) {
    b != "" && (a == "" || a[0] < b[0] || (a[0] == b[0] && LexLess(a[1..], b[1..])))
  }

  lemma {:induction false} LexCommon(p: string, x: string, y: string)
    ensures LexLess(p + x, p + y) <==> LexLess(x, y)
  {
    if p == "" {
      assert p + x == x && p + y == y;
    } else {
      assert (p + x)[1..] == p[1..] + x && (p + y)[1..] == p[1..] + y;
      LexCommon(p[1..], x, y);
    }
  }

  lemma {:induction false} LexHead(c: char, d: char, x: string, y: string)
    ensures LexLess([c] + x, [d] + y) <==> c < d || (c == d && LexLess(x, y))
  {
    assert ([c] + x)[1..] == x && ([d] + y)[1..] == y;
  }

  /** Fixed-width numbers compare as numbers; on a tie the rest decides. */
  lemma {:induction false} LexField(m: nat, n: nat, k: nat, x: string, y: string)
    requires m < Pow10(k) && n < Pow10(k)
    ensures LexLess(Pad(m, k) + x, Pad(n, k) + y) <==> m < n || (m == n && LexLess(x, y))
  {
    if k == 0 {
      assert Pad(m, k) + x == x && Pad(n, k) + y == y;
    } else {
      var c, d := DigitChar(m % 10), DigitChar(n % 10);
      assert Pad(m, k) + x == Pad(m / 10, k - 1) + ([c] + x);
      assert Pad(n, k) + y == Pad(n / 10, k - 1) + ([d] + y);
      LexField(m / 10, n / 10, k - 1, [c] + x, [d] + y);
      LexHead(c, d, x, y);
    }
  }

  lemma {:induction false} FractionText(n: nat)
    requires n < 1000000
    ensures Fraction(n) + "+00:00" == if n == 0 then ['+'] + "00:00" else ['.'] + (Pad(n, 6) + "+00:00")
  {
    if n == 0 {
      assert "" + "+00:00" == ['+'] + "00:00";
    }
  }

  lemma LexFraction(m: nat, n: nat)
    requires m < 1000000 && n < 1000000
    ensures LexLess(Fraction(m) + "+00:00", Fraction(n) + "+00:00") <==> m < n
  {
    hide Fraction, Pad;
    var z := "+00:00";
    Pow10Values();
    FractionText(m);
    FractionText(n);
    var fm, fn := Pad(m, 6) + z, Pad(n, 6) + z;
    LexHead('.', '.', fm, fn);
    LexHead('+', '.', "00:00", fn);
    LexHead('.', '+', fm, "00:00");
    LexIrreflexive(['+'] + "00:00");
    if m != 0 && n != 0 {
      LexIrreflexive(z);
      LexField(m, n, 6, z, z);
    }
  }

  lemma Pow10Values()
    ensures Pow10(2) == 100 && Pow10(4) == 10000 && Pow10(6) == 1000000
  {
    assert Pow10(3) == 1000;
    assert Pow10(5) == 100000;
  }

  /** The store's comparison is chronological, although the fraction is omitted when it is
      zero (which needs '+' to sort before '.'). */
  lemma TextOrderIsTimeOrder(a: DateTime, b: DateTime)
    requires Valid(a) && Valid(b)
    ensures LexLess(Iso(a), Iso(b)) <==> Micros(a) < Micros(b)
    ensures Iso(a) == Iso(b) <==> Micros(a) == Micros(b)
  {
    TextOrderIsFieldOrder(a, b);
    TextOrderIsFieldOrder(b, a);
    FieldOrderExact(a, b);
    FieldOrderExact(b, a);
    LexIrreflexive(Iso(a));
  }

  lemma {:induction false} LexIrreflexive(s: string)
    ensures !LexLess(s, s)
  {
    LexCommon(s, "", "");
    assert s + "" == s;
  }

  /** One separator and one two-digit field. */
  lemma {:induction false} LexTwo(sep: string, m: nat, n: nat, x: string, y: string)
    requires m < 100 && n < 100
    ensures LexLess(sep + (Pad(m, 2) + x), sep + (Pad(n, 2) + y)) <==> m < n || (m == n && LexLess(x, y))
  {
    LexCommon(sep, Pad(m, 2) + x, Pad(n, 2) + y);
    Pow10Values();
    LexField(m, n, 2, x, y);
  }

  function SecondText(d: DateTime): string { ":" + (Pad(d.second, 2) + (Fraction(d.micro) + "+00:00")) }

  function MinuteText(d: DateTime): string { ":" + (Pad(d.minute, 2) + SecondText(d)) }

  function HourText(d: DateTime): string { "T" + (Pad(d.hour, 2) + MinuteText(d)) }

  function DayText(d: DateTime): string { "-" + (Pad(d.day, 2) + HourText(d)) }

  function MonthText(d: DateTime): string { "-" + (Pad(d.month, 2) + DayText(d)) }

  lemma TextOrderIsFieldOrder(a: DateTime, b: DateTime)
    requires Valid(a) && Valid(b)
    ensures LexLess(Iso(a), Iso(b)) <==> FieldLess(a, b)
  {
    Pow10Values();
    assert Iso(a) == Pad(a.year, 4) + MonthText(a) && Iso(b) == Pad(b.year, 4) + MonthText(b);
    LexField(a.year, b.year, 4, MonthText(a), MonthText(b));
    LexTwo("-", a.month, b.month, DayText(a), DayText(b));
    LexTwo("-", a.day, b.day, HourText(a), HourText(b));
    LexTwo("T", a.hour, b.hour, MinuteText(a), MinuteText(b));
    LexTwo(":", a.minute, b.minute, SecondText(a), SecondText(b));
    LexTwo(":", a.second, b.second, Fraction(a.micro) + "+00:00", Fraction(b.micro) + "+00:00");
    LexFraction(a.micro, b.micro);
  }

  // -- Reading the text back ---------------------------------------------------------------------

  predicate IsDigit(c: char) {
    '0' <= c <= '9'
  }

  predicate AllDigits(s: string) {
    forall i :: 0 <= i < |s| ==> IsDigit(s[i])
  }

  function Num(s: string): nat
    requires AllDigits(s)
  {
    if s == "" then 0 else Num(s[..|s| - 1]) * 10 + (s[|s| - 1] as int - '0' as int)
  }

  /** `datetime.fromisoformat`, on the two layouts the store writes. */
  function ParseIso(s: string): Option<DateTime> {
    if |s| != 25 && |s| != 32 then None
    else
      var tail := s[|s| - 6..];
      var micro := if |s| == 32 then s[20..26] else "0";
      if s[4] != '-' || s[7] != '-' || s[10] != 'T' || s[13] != ':' || s[16] != ':' || tail != "+00:00"
         || (|s| == 32 && s[19] != '.')
         || !AllDigits(s[0..4]) || !AllDigits(s[5..7]) || !AllDigits(s[8..10]) || !AllDigits(s[11..13])
         || !AllDigits(s[14..16]) || !AllDigits(s[17..19]) || !AllDigits(micro)
      then None
      else
        var d := DateTime(Num(s[0..4]), Num(s[5..7]), Num(s[8..10]), Num(s[11..13]),
                          Num(s[14..16]), Num(s[17..19]), Num(micro));
        if Valid(d) then Some(d) else None
  }

  lemma {:induction false} NumOfPad(n: nat, k: nat)
    requires n < Pow10(k)
    ensures AllDigits(Pad(n, k)) && Num(Pad(n, k)) == n
  {
    if k > 0 {
      NumOfPad(n / 10, k - 1);
      assert Pad(n, k)[..k - 1] == Pad(n / 10, k - 1);
    }
  }

  lemma IsoSlices(d: DateTime)
    requires Valid(d)
    ensures var s := Iso(d);
            && |s| == (if d.micro == 0 then 25 else 32)
            && s[0..4] == Pad(d.year, 4) && s[5..7] == Pad(d.month, 2) && s[8..10] == Pad(d.day, 2)
            && s[11..13] == Pad(d.hour, 2) && s[14..16] == Pad(d.minute, 2) && s[17..19] == Pad(d.second, 2)
            && s[4] == '-' && s[7] == '-' && s[10] == 'T' && s[13] == ':' && s[16] == ':'
            && s[19..] == Fraction(d.micro) + "+00:00"
  {
    var s := Iso(d);
    assert s[4..] == MonthText(d) && s[0..4] == Pad(d.year, 4);
    Peel(s, 4, "-", d.month, DayText(d));
    Peel(s, 7, "-", d.day, HourText(d));
    Peel(s, 10, "T", d.hour, MinuteText(d));
    Peel(s, 13, ":", d.minute, SecondText(d));
    Peel(s, 16, ":", d.second, Fraction(d.micro) + "+00:00");
  }

  lemma {:induction false} Peel(s: string, at: nat, sep: string, n: nat, x: string)
    requires |sep| == 1 && at <= |s| && s[at..] == sep + (Pad(n, 2) + x)
    ensures at + 3 <= |s| && s[at] == sep[0] && s[at + 1..at + 3] == Pad(n, 2) && s[at + 3..] == x
  {
    var t := s[at..];
    assert t[0] == sep[0] && t[1..3] == Pad(n, 2) && t[3..] == x;
    assert s[at + 1..at + 3] == t[1..3] && s[at + 3..] == t[3..];
  }

  lemma TailSlices(d: DateTime)
    requires Valid(d)
    ensures var s := Iso(d);
            && s[|s| - 6..] == "+00:00"
            && (d.micro != 0 ==> |s| == 32 && s[19] == '.' && s[20..26] == Pad(d.micro, 6))
  {
    IsoSlices(d);
    var s := Iso(d);
    var tail := s[19..];
    assert s[|s| - 6..] == tail[|tail| - 6..];
    if d.micro != 0 {
      assert s[20..26] == tail[1..7];
    }
  }

  lemma FieldsOfIso(d: DateTime)
    requires Valid(d)
    ensures AllDigits(Pad(d.year, 4)) && Num(Pad(d.year, 4)) == d.year
    ensures AllDigits(Pad(d.month, 2)) && Num(Pad(d.month, 2)) == d.month
    ensures AllDigits(Pad(d.day, 2)) && Num(Pad(d.day, 2)) == d.day
    ensures AllDigits(Pad(d.hour, 2)) && Num(Pad(d.hour, 2)) == d.hour
    ensures AllDigits(Pad(d.minute, 2)) && Num(Pad(d.minute, 2)) == d.minute
    ensures AllDigits(Pad(d.second, 2)) && Num(Pad(d.second, 2)) == d.second
    ensures AllDigits(Pad(d.micro, 6)) && Num(Pad(d.micro, 6)) == d.micro
    ensures AllDigits("0") && Num("0") == 0
  {
    Pow10Values();
    NumOfPad(d.year, 4);
    NumOfPad(d.month, 2);
    NumOfPad(d.day, 2);
    NumOfPad(d.hour, 2);
    NumOfPad(d.minute, 2);
    NumOfPad(d.second, 2);
    NumOfPad(d.micro, 6);
    assert "0"[..0] == "";
  }

  /** Parsing the stored text gives the same instant back. */
  lemma ParseOfIso(d: DateTime)
    requires Valid(d)
    ensures ParseIso(Iso(d)) == Some(d)
  {
    IsoSlices(d);
    TailSlices(d);
    FieldsOfIso(d);
  }

  // -- Instants back to text ---------------------------------------------------------------------

  const FIRST: nat := DAY                    // 0001-01-01T00:00:00
  const LAST: nat := 3652060 * DAY - 1       // 9999-12-31T23:59:59.999999

  function YearOf(n: nat, y: nat): (r: nat)
    requires 1 <= y <= 9999 && DaysBeforeYear(y) < n <= DaysBeforeYear(10000)
    ensures 1 <= r <= 9999 && DaysBeforeYear(r) < n <= DaysBeforeYear(r + 1)
    decreases 10000 - y
  {
    if n <= DaysBeforeYear(y + 1) then y else YearOf(n, y + 1)
  }

  function MonthOf(y: nat, n: nat, m: nat): (r: nat)
    requires 1 <= m <= 12 && DaysBeforeMonth(y, m) < n <= DaysBeforeMonth(y, 13)
    ensures 1 <= r <= 12 && DaysBeforeMonth(y, r) < n <= DaysBeforeMonth(y, r + 1)
    decreases 13 - m
  {
    if n <= DaysBeforeMonth(y, m + 1) then m else MonthOf(y, n, m + 1)
  }

  /** Midnight of a day. */
  function AtDay(n: nat): (d: DateTime)
    requires 1 <= n <= 3652059
    ensures Valid(d) && Ordinal(d) == n && OfDay(d) == 0
  {
    LastDay();
    var y := YearOf(n, 1);
    YearStep(y);
    YearHolds(y);
    var inYear := n - DaysBeforeYear(y);
    var m := MonthOf(y, inYear, 1);
    DateTime(y, m, inYear - DaysBeforeMonth(y, m), 0, 0, 0, 0)
  }

  /** The datetime at an instant: what `now - grace` computes. */
  function AtMicros(t: nat): (d: DateTime)
    requires FIRST <= t <= LAST
    ensures Valid(d) && Micros(d) == t
  {
    var rest := t % DAY;
    var seconds := rest / 1000000;
    TimeOfDay(rest);
    DayOf(t);
    AtDay(t / DAY).(hour := seconds / 3600, minute := seconds / 60 % 60, second := seconds % 60, micro := rest % 1000000)
  }

  lemma DayOf(t: nat)
    requires FIRST <= t <= LAST
    ensures 1 <= t / DAY <= 3652059 && t == t / DAY * DAY + t % DAY
  {
  }

  lemma LastDay()
    ensures DaysBeforeYear(10000) == 3652059 && DaysBeforeYear(1) == 0
  {
  }

  lemma TimeOfDay(rest: nat)
    requires rest < DAY
    ensures var seconds := rest / 1000000;
            && seconds / 3600 < 24
            && ((seconds / 3600 * 60 + seconds / 60 % 60) * 60 + seconds % 60) * 1000000 + rest % 1000000 == rest
  {
    var seconds := rest / 1000000;
    assert seconds / 60 / 60 == seconds / 3600;
  }
}
