/** UTC timestamps and the text they are stored as: chrono's `to_rfc3339`, the date-time of
  * RFC 3339 section 5.6 with 0, 3, 6 or 9 fraction digits. */
module Timestamps {
  import opened Decimals

  /** A UTC date and time of the proleptic Gregorian calendar. */
  datatype Stamp = Stamp(year: int, month: nat, day: nat, hour: nat, minute: nat, second: nat, nano: nat)

  predicate IsLeap(year: int) {
    year % 4 == 0 && (year % 100 != 0 || year % 400 == 0)
  }

  function DaysIn(year: int, month: nat): nat {
    if month == 2 then (if IsLeap(year) then 29 else 28)
    else if month in {4, 6, 9, 11} then 30 else 31
  }

  predicate IsStamp(t: Stamp) {
    && 1 <= t.month <= 12 && 1 <= t.day <= DaysIn(t.year, t.month)
    && t.hour < 24 && t.minute < 60 && t.second < 60 && t.nano < 1_000_000_000
  }

  // ----- Elapsed time -----

  /** Days from the first day of year 0 to the first day of `year`, up to a constant. */
  function DaysBeforeYear(year: int): int {
    365 * year + (year - 1) / 4 - (year - 1) / 100 + (year - 1) / 400
  }

  function DaysBeforeMonth(year: int, month: nat): nat {
    if month <= 1 then 0 else DaysBeforeMonth(year, month - 1) + DaysIn(year, month - 1)
  }

  function DayNumber(t: Stamp): int {
    DaysBeforeYear(t.year) + DaysBeforeMonth(t.year, t.month) + t.day - 1
  }

  function SecondOfDay(t: Stamp): nat {
    (t.hour * 60 + t.minute) * 60 + t.second
  }

  /** Nanoseconds on the UTC time line. */
  function Nanos(t: Stamp): int {
    (DayNumber(t) * 86_400 + SecondOfDay(t)) * 1_000_000_000 + t.nano
  }

  // ----- Text -----

  /** Four digits, or a sign and at least four outside 0 to 9999. */
  function YearText(year: int): string {
    if 0 <= year <= 9999 then Pad(year, 4)
    else if year > 9999 then "+" + Decimal(year)
    else "-" + (if -year <= 9999 then Pad(-year, 4) else Decimal(-year))
  }

  function FractionText(nano: nat): string {
    if nano == 0 then ""
    else if nano % 1_000_000 == 0 then "." + Pad(nano / 1_000_000, 3)
    else if nano % 1_000 == 0 then "." + Pad(nano / 1_000, 6)
    else "." + Pad(nano, 9)
  }

  function ToRfc3339(t: Stamp): string {
    YearText(t.year) + ("-" + (Pad(t.month, 2) + ("-" + (Pad(t.day, 2) + ("T" + (Pad(t.hour, 2) + (":" +
    (Pad(t.minute, 2) + (":" + (Pad(t.second, 2) + (FractionText(t.nano) + "+00:00")))))))))))
  }

  /** The order of the stored text: byte by byte, a proper prefix first. */
  predicate TextBefore(s: string, t: string) {
    t != [] && (s == [] || s[0] < t[0] || (s[0] == t[0] && TextBefore(s[1..], t[1..])))
  }

  // ----- Chronological order is the order of the fields -----

  predicate TimeEarlier(a: Stamp, b: Stamp) {
    a.hour < b.hour || (a.hour == b.hour &&
    (a.minute < b.minute || (a.minute == b.minute &&
    (a.second < b.second || (a.second == b.second && a.nano < b.nano)))))
  }

  predicate Earlier(a: Stamp, b: Stamp) {
    a.year < b.year || (a.year == b.year &&
    (a.month < b.month || (a.month == b.month &&
    (a.day < b.day || (a.day == b.day && TimeEarlier(a, b))))))
  }

  lemma YearStep(year: int)
    ensures DaysBeforeYear(year + 1) == DaysBeforeYear(year) + (if IsLeap(year) then 366 else 365)
  {
    assert year / 4 - (year - 1) / 4 == if year % 4 == 0 then 1 else 0;
    assert year / 100 - (year - 1) / 100 == if year % 100 == 0 then 1 else 0;
    assert year / 400 - (year - 1) / 400 == if year % 400 == 0 then 1 else 0;
    assert year % 400 == 0 ==> year % 100 == 0;
    assert year % 100 == 0 ==> year % 4 == 0;
  }

  lemma {:induction false} YearsAreOrdered(a: int, b: int)
    requires a < b
    ensures DaysBeforeYear(a) + (if IsLeap(a) then 366 else 365) <= DaysBeforeYear(b)
    decreases b - a
  {
    YearStep(a);
    if a >= b - 1 {
    } else {
      YearsAreOrdered(a + 1, b);
    }
  }

  lemma {:induction false} MonthsAreOrdered(year: int, a: nat, b: nat)
    requires 1 <= a < b
    ensures DaysBeforeMonth(year, a) + DaysIn(year, a) <= DaysBeforeMonth(year, b)
    decreases b
  {
    if a >= b - 1 {
    } else {
      MonthsAreOrdered(year, a, b - 1);
    }
  }

  lemma YearHasItsDays(year: int)
    ensures DaysBeforeMonth(year, 13) == if IsLeap(year) then 366 else 365
  {
    var feb := DaysIn(year, 2);
    assert DaysBeforeMonth(year, 2) == 31;
    assert DaysBeforeMonth(year, 4) == DaysBeforeMonth(year, 3) + 31 == 62 + feb;
    assert DaysBeforeMonth(year, 6) == DaysBeforeMonth(year, 5) + 31 == 123 + feb;
    assert DaysBeforeMonth(year, 8) == DaysBeforeMonth(year, 7) + 31 == 184 + feb;
    assert DaysBeforeMonth(year, 10) == DaysBeforeMonth(year, 9) + 30 == 245 + feb;
    assert DaysBeforeMonth(year, 12) == DaysBeforeMonth(year, 11) + 30 == 306 + feb;
  }

  lemma EarlierDayIsSmaller(a: Stamp, b: Stamp)
    requires IsStamp(a) && IsStamp(b)
    requires a.year < b.year || (a.year == b.year && (a.month < b.month || (a.month == b.month && a.day < b.day)))
    ensures DayNumber(a) < DayNumber(b)
  {
    if a.year < b.year {
      YearsAreOrdered(a.year, b.year);
      YearHasItsDays(a.year);
      MonthsAreOrdered(a.year, a.month, 13);
    } else if a.month < b.month {
      MonthsAreOrdered(a.year, a.month, b.month);
    }
  }

  lemma EarlierIsSmaller(a: Stamp, b: Stamp)
    requires IsStamp(a) && IsStamp(b) && Earlier(a, b)
    ensures Nanos(a) < Nanos(b)
  {
    if a.year == b.year && a.month == b.month && a.day == b.day {
      assert DayNumber(a) == DayNumber(b);
    } else {
      EarlierDayIsSmaller(a, b);
    }
  }

  lemma EarlierIsChronological(a: Stamp, b: Stamp)
    requires IsStamp(a) && IsStamp(b)
    ensures Earlier(a, b) <==> Nanos(a) < Nanos(b)
  {
    if Earlier(a, b) {
      EarlierIsSmaller(a, b);
    } else if Earlier(b, a) {
      EarlierIsSmaller(b, a);
    }
  }

  // ----- Text order is the order of the fields -----

  lemma {:induction false} PadOrder(a: nat, b: nat, width: nat, s: string, t: string)
    requires a < Pow10(width) && b < Pow10(width)
    ensures TextBefore(Pad(a, width) + s, Pad(b, width) + t) <==> a < b || (a == b && TextBefore(s, t))
  {
    if width == 0 {
      assert Pad(a, 0) + s == s && Pad(b, 0) + t == t;
    } else {
      var s', t' := [Digit(a % 10)] + s, [Digit(b % 10)] + t;
      PadOrder(a / 10, b / 10, width - 1, s', t');
      assert Pad(a, width) + s == Pad(a / 10, width - 1) + s';
      assert Pad(b, width) + t == Pad(b / 10, width - 1) + t';
      assert s'[1..] == s && t'[1..] == t;
    }
  }

  function Pow10(n: nat): nat {
    if n == 0 then 1 else 10 * Pow10(n - 1)
  }

  /** Two fields of one width after the same separator. */
  lemma FieldOrder(sep: char, a: nat, b: nat, s: string, t: string)
    requires a < 100 && b < 100
    ensures TextBefore([sep] + (Pad(a, 2) + s), [sep] + (Pad(b, 2) + t)) <==> a < b || (a == b && TextBefore(s, t))
  {
    assert Pow10(2) == 100;
    PadOrder(a, b, 2, s, t);
    assert ([sep] + (Pad(a, 2) + s))[1..] == Pad(a, 2) + s;
    assert ([sep] + (Pad(b, 2) + t))[1..] == Pad(b, 2) + t;
  }

  /** The fraction in groups of three digits, ending where only zeros would follow. */
  function Group3(ns: nat): string {
    if ns == 0 then "+00:00" else Pad(ns, 3) + "+00:00"
  }

  function Group6(us: nat, ns: nat): string {
    if us == 0 && ns == 0 then "+00:00" else Pad(us, 3) + Group3(ns)
  }

  lemma ThreeDigits(n: nat, width: nat)
    ensures Pad(n, width + 3) == Pad(n / 1000, width) + [Digit(n / 100 % 10), Digit(n / 10 % 10), Digit(n % 10)]
  {
    assert n / 10 / 10 == n / 100 && n / 100 / 10 == n / 1000;
    assert Pad(n / 100, width + 1) == Pad(n / 1000, width) + [Digit(n / 100 % 10)];
    assert Pad(n / 10, width + 2) == Pad(n / 100, width + 1) + [Digit(n / 10 % 10)];
    assert Pad(n, width + 3) == Pad(n / 10, width + 2) + [Digit(n % 10)];
  }

  /** What lies above a digit does not change it. */
  lemma DigitAbove(q: nat, r: nat, above: nat, place: nat)
    requires (above == 10 && place == 100) || (above == 100 && place == 10) || (above == 1000 && place == 1)
    ensures (q * 1000 + r) / place % 10 == r / place % 10
  {
    if above == 10 {
      assert (q * 1000 + r) / 100 == 10 * q + r / 100;
      TensAbove(q, r / 100);
    } else if above == 100 {
      assert (q * 1000 + r) / 10 == 10 * (10 * q) + r / 10;
      TensAbove(10 * q, r / 10);
    } else {
      assert q * 1000 + r == 10 * (100 * q) + r;
      TensAbove(100 * q, r);
    }
  }

  lemma TensAbove(k: nat, m: nat)
    ensures (10 * k + m) % 10 == m % 10
  {
  }

  lemma DigitsOfRemainder(n: nat)
    ensures n % 1000 / 100 % 10 == n / 100 % 10 && n % 1000 / 10 % 10 == n / 10 % 10 && n % 1000 % 10 == n % 10
  {
    var q, r := n / 1000, n % 1000;
    DigitAbove(q, r, 10, 100);
    DigitAbove(q, r, 100, 10);
    DigitAbove(q, r, 1000, 1);
    assert n == q * 1000 + r;
  }

  lemma PadSplit(n: nat, width: nat)
    ensures Pad(n, width + 3) == Pad(n / 1000, width) + Pad(n % 1000, 3)
  {
    ThreeDigits(n, width);
    ThreeDigits(n % 1000, 0);
    DigitsOfRemainder(n);
    assert Pad(n % 1000, 0 + 3) == [Digit(n / 100 % 10), Digit(n / 10 % 10), Digit(n % 10)];
  }

  lemma Thousands(nano: nat)
    ensures nano / 1_000 / 1_000 == nano / 1_000_000
    ensures nano % 1_000_000 == 0 <==> nano / 1_000 % 1_000 == 0 && nano % 1_000 == 0
  {
    var us, ns := nano / 1_000, nano % 1_000;
    assert nano == us * 1_000 + ns;
    assert us == (us / 1_000) * 1_000 + us % 1_000;
  }

  lemma FractionInGroups(nano: nat)
    requires 0 < nano < 1_000_000_000
    ensures FractionText(nano) + "+00:00"
         == "." + (Pad(nano / 1_000_000, 3) + Group6(nano / 1_000 % 1_000, nano % 1_000))
  {
    var ms, us, ns := nano / 1_000_000, nano / 1_000 % 1_000, nano % 1_000;
    Thousands(nano);
    if us == 0 && ns == 0 {
      Reassociate(Pad(ms, 3), "", "", "+00:00");
    } else if ns == 0 {
      PadSplit(nano / 1_000, 3);
      Reassociate(Pad(ms, 3), Pad(us, 3), "", "+00:00");
    } else {
      PadSplit(nano, 6);
      PadSplit(nano / 1_000, 3);
      Reassociate(Pad(ms, 3), Pad(us, 3), Pad(ns, 3), "+00:00");
    }
  }

  lemma Reassociate(a: string, b: string, c: string, d: string)
    ensures "." + (a + b + c) + d == "." + (a + (b + (c + d)))
    ensures a + b + "" == a + b && a + "" == a && "" + d == d
  {
  }

  /** The offset's plus sign sorts before every digit. */
  lemma OffsetBeforeDigits(n: nat, s: string)
    ensures TextBefore("+00:00", Pad(n, 3) + s) && !TextBefore(Pad(n, 3) + s, "+00:00")
  {
    ThreeDigits(n, 0);
    assert Pad(n, 0 + 3) == [Digit(n / 100 % 10), Digit(n / 10 % 10), Digit(n % 10)];
    assert (Pad(n, 3) + s)[0] == Digit(n / 100 % 10);
  }

  lemma Group3Order(a: nat, b: nat)
    requires a < 1000 && b < 1000
    ensures TextBefore(Group3(a), Group3(b)) <==> a < b
  {
    assert Pow10(3) == 1000;
    TextBeforeIsIrreflexive("+00:00");
    PadOrder(a, b, 3, "+00:00", "+00:00");
    OffsetBeforeDigits(a, "+00:00");
    OffsetBeforeDigits(b, "+00:00");
  }

  lemma {:induction false} TextBeforeIsIrreflexive(s: string)
    ensures !TextBefore(s, s)
  {
    if s == [] {
    } else {
      TextBeforeIsIrreflexive(s[1..]);
    }
  }

  lemma Group6Order(a: nat, b: nat, a': nat, b': nat)
    requires a < 1000 && b < 1000 && a' < 1000 && b' < 1000
    ensures TextBefore(Group6(a, b), Group6(a', b')) <==> a < a' || (a == a' && b < b')
  {
    assert Pow10(3) == 1000;
    TextBeforeIsIrreflexive("+00:00");
    Group3Order(b, b');
    PadOrder(a, a', 3, Group3(b), Group3(b'));
    OffsetBeforeDigits(a, Group3(b));
    OffsetBeforeDigits(a', Group3(b'));
  }

  lemma FractionGroupsOrder(m: nat, n: nat)
    requires 0 < m < 1_000_000_000 && 0 < n < 1_000_000_000
    ensures TextBefore(FractionText(m) + "+00:00", FractionText(n) + "+00:00")
      <==> m / 1_000_000 < n / 1_000_000 || (m / 1_000_000 == n / 1_000_000
           && (m / 1_000 % 1_000 < n / 1_000 % 1_000 || (m / 1_000 % 1_000 == n / 1_000 % 1_000
               && m % 1_000 < n % 1_000)))
  {
    assert Pow10(3) == 1000;
    var g, h := Group6(m / 1_000 % 1_000, m % 1_000), Group6(n / 1_000 % 1_000, n % 1_000);
    FractionInGroups(m);
    FractionInGroups(n);
    PadOrder(m / 1_000_000, n / 1_000_000, 3, g, h);
    Group6Order(m / 1_000 % 1_000, m % 1_000, n / 1_000 % 1_000, n % 1_000);
    assert ("." + (Pad(m / 1_000_000, 3) + g))[1..] == Pad(m / 1_000_000, 3) + g;
    assert ("." + (Pad(n / 1_000_000, 3) + h))[1..] == Pad(n / 1_000_000, 3) + h;
  }

  lemma GroupsOfThree(n: nat)
    ensures n == n / 1_000_000 * 1_000_000 + n / 1_000 % 1_000 * 1_000 + n % 1_000
  {
    assert n / 1_000 / 1_000 == n / 1_000_000;
  }

  lemma GroupsCompare(a: nat, b: nat, c: nat, a': nat, b': nat, c': nat)
    requires b < 1_000 && c < 1_000 && b' < 1_000 && c' < 1_000
    ensures a * 1_000_000 + b * 1_000 + c < a' * 1_000_000 + b' * 1_000 + c'
      <==> a < a' || (a == a' && (b < b' || (b == b' && c < c')))
  {
  }

  lemma FractionOrder(m: nat, n: nat)
    requires m < 1_000_000_000 && n < 1_000_000_000
    ensures TextBefore(FractionText(m) + "+00:00", FractionText(n) + "+00:00") <==> m < n
  {
    TextBeforeIsIrreflexive("+00:00");
    assert "" + "+00:00" == "+00:00";
    if m > 0 && n > 0 {
      FractionGroupsOrder(m, n);
      GroupsOfThree(m);
      GroupsOfThree(n);
      GroupsCompare(m / 1_000_000, m / 1_000 % 1_000, m % 1_000, n / 1_000_000, n / 1_000 % 1_000, n % 1_000);
    } else if m > 0 {
      FractionInGroups(m);
    } else if n > 0 {
      FractionInGroups(n);
    }
  }

  function TimeText(t: Stamp): string {
    "T" + (Pad(t.hour, 2) + (":" + (Pad(t.minute, 2) + (":" + (Pad(t.second, 2) + (FractionText(t.nano) + "+00:00"))))))
  }

  lemma TimeTextOrder(a: Stamp, b: Stamp)
    requires IsStamp(a) && IsStamp(b)
    ensures TextBefore(TimeText(a), TimeText(b)) <==> TimeEarlier(a, b)
  {
    var fa, fb := FractionText(a.nano) + "+00:00", FractionText(b.nano) + "+00:00";
    var sa, sb := ":" + (Pad(a.second, 2) + fa), ":" + (Pad(b.second, 2) + fb);
    var ma, mb := ":" + (Pad(a.minute, 2) + sa), ":" + (Pad(b.minute, 2) + sb);
    FractionOrder(a.nano, b.nano);
    FieldOrder(':', a.second, b.second, fa, fb);
    FieldOrder(':', a.minute, b.minute, sa, sb);
    FieldOrder('T', a.hour, b.hour, ma, mb);
  }

  lemma TextOrderInRange(a: Stamp, b: Stamp)
    requires IsStamp(a) && IsStamp(b) && 0 <= a.year <= 9999 && 0 <= b.year <= 9999
    ensures TextBefore(ToRfc3339(a), ToRfc3339(b)) <==> Earlier(a, b)
  {
    var da, db := "-" + (Pad(a.day, 2) + TimeText(a)), "-" + (Pad(b.day, 2) + TimeText(b));
    var ma, mb := "-" + (Pad(a.month, 2) + da), "-" + (Pad(b.month, 2) + db);
    TimeTextOrder(a, b);
    FieldOrder('-', a.day, b.day, TimeText(a), TimeText(b));
    FieldOrder('-', a.month, b.month, da, db);
    assert Pow10(4) == 10_000;
    PadOrder(a.year, b.year, 4, ma, mb);
  }

  lemma FirstCharOfYear(t: Stamp)
    ensures ToRfc3339(t) != []
    ensures 0 <= t.year <= 9999 ==> '0' <= ToRfc3339(t)[0] <= '9'
    ensures t.year > 9999 ==> ToRfc3339(t)[0] == '+'
    ensures t.year < 0 ==> ToRfc3339(t)[0] == '-'
  {
    var y := YearText(t.year);
    if 0 <= t.year <= 9999 {
      ThreeDigits(t.year, 1);
      assert Pad(t.year / 1000, 1) == [Digit(t.year / 1000 % 10)];
    }
    assert ToRfc3339(t)[0] == y[0];
  }

  /** Against a cutoff in the years 0 to 9999 the text comparison is chronological for every stored
    * timestamp with a year up to 9999, although the number of fraction digits varies; a later year is
    * always taken for older, because its text starts with a sign. */
  lemma TextOrderIsChronological(t: Stamp, cutoff: Stamp)
    requires IsStamp(t) && IsStamp(cutoff) && 0 <= cutoff.year <= 9999
    ensures TextBefore(ToRfc3339(t), ToRfc3339(cutoff)) <==> Nanos(t) < Nanos(cutoff) || t.year > 9999
  {
    EarlierIsChronological(t, cutoff);
    FirstCharOfYear(t);
    FirstCharOfYear(cutoff);
    if 0 <= t.year <= 9999 {
      TextOrderInRange(t, cutoff);
    }
  }
}
