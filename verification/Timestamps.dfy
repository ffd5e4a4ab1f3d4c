/**
  Stored UTC timestamps are compared as text. isoformat drops a zero fraction, so the texts have
  two lengths; the comparison is chronological all the same.
*/
module Timestamps {
  import opened Options
  import opened Text

  datatype DateTime = DateTime(year: nat, month: nat, day: nat, hour: nat, minute: nat, second: nat, micro: nat)

  /******* The calendar *******/

  predicate Leap(y: nat) {
    y % 4 == 0 && (y % 100 != 0 || y % 400 == 0)
  }

  function DaysInMonth(y: nat, m: nat): nat {
    if m == 2 then (if Leap(y) then 29 else 28)
    else if m == 4 || m == 6 || m == 9 || m == 11 then 30
    else 31
  }

  function DaysBeforeMonth(y: nat, m: nat): nat {
    if m <= 1 then 0 else DaysBeforeMonth(y, m - 1) + DaysInMonth(y, m - 1)
  }

  function DaysBeforeYear(y: nat): nat {
    if y <= 1 then 0 else DaysBeforeYear(y - 1) + (if Leap(y - 1) then 366 else 365)
  }

  predicate Valid(t: DateTime) {
    && 1 <= t.year <= 9999 && 1 <= t.month <= 12 && 1 <= t.day <= DaysInMonth(t.year, t.month)
    && t.hour < 24 && t.minute < 60 && t.second < 60 && t.micro < 1_000_000
  }

  function Ordinal(t: DateTime): int {
    DaysBeforeYear(t.year) + DaysBeforeMonth(t.year, t.month) + t.day
  }

  function SecondOfDay(t: DateTime): int {
    (t.hour * 60 + t.minute) * 60 + t.second
  }

  /** Microseconds since the start of the calendar. */
  function Instant(t: DateTime): int {
    (Ordinal(t) * 86400 + SecondOfDay(t)) * 1_000_000 + t.micro
  }

  lemma {:induction false} MonthsAscend(y: nat, m: nat, n: nat)
    requires 1 <= m < n
    ensures DaysBeforeMonth(y, m) + DaysInMonth(y, m) <= DaysBeforeMonth(y, n)
    decreases n
  {
    if m < n - 1 {
      MonthsAscend(y, m, n - 1);
    }
  }

  lemma {:induction false} YearLength(y: nat)
    ensures DaysBeforeMonth(y, 12) + 31 == (if Leap(y) then 366 else 365)
  {
    assert DaysBeforeMonth(y, 2) == 31;
    assert DaysBeforeMonth(y, 4) == DaysBeforeMonth(y, 3) + 31;
    assert DaysBeforeMonth(y, 6) == DaysBeforeMonth(y, 5) + 31;
    assert DaysBeforeMonth(y, 8) == DaysBeforeMonth(y, 7) + 31;
    assert DaysBeforeMonth(y, 10) == DaysBeforeMonth(y, 9) + 30;
    assert DaysBeforeMonth(y, 12) == DaysBeforeMonth(y, 11) + 30;
  }

  lemma {:induction false} YearsAscend(y: nat, z: nat)
    requires 1 <= y < z
    ensures DaysBeforeYear(y) + (if Leap(y) then 366 else 365) <= DaysBeforeYear(z)
    decreases z
  {
    if y < z - 1 {
      YearsAscend(y, z - 1);
    }
  }

  /** Date fields in lexicographic order. */
  predicate DateLess(a: DateTime, b: DateTime) {
    a.year < b.year || (a.year == b.year && (a.month < b.month || (a.month == b.month && a.day < b.day)))
  }

  predicate TimeLess(a: DateTime, b: DateTime) {
    a.hour < b.hour || (a.hour == b.hour && (a.minute < b.minute || (a.minute == b.minute && a.second < b.second)))
  }

  lemma {:induction false} EarlierDate(a: DateTime, b: DateTime)
    requires Valid(a) && Valid(b) && DateLess(a, b)
    ensures Ordinal(a) < Ordinal(b)
  {
    if a.year < b.year {
      YearsAscend(a.year, b.year);
      YearLength(a.year);
      if a.month < 12 {
        MonthsAscend(a.year, a.month, 12);
      }
    } else if a.month < b.month {
      MonthsAscend(a.year, a.month, b.month);
    }
  }

  predicate SameDate(a: DateTime, b: DateTime) {
    a.year == b.year && a.month == b.month && a.day == b.day
  }

  predicate SameTime(a: DateTime, b: DateTime) {
    a.hour == b.hour && a.minute == b.minute && a.second == b.second
  }

  predicate FieldsLess(a: DateTime, b: DateTime) {
    DateLess(a, b) || (SameDate(a, b) && (TimeLess(a, b) || (SameTime(a, b) && a.micro < b.micro)))
  }

  lemma {:induction false} EarlierFields(a: DateTime, b: DateTime)
    requires Valid(a) && Valid(b) && FieldsLess(a, b)
    ensures Instant(a) < Instant(b)
  {
    assert 0 <= SecondOfDay(a) < 86400 && 0 <= SecondOfDay(b) < 86400;
    if DateLess(a, b) {
      EarlierDate(a, b);
    }
  }

  lemma {:induction false} FieldsAreChronological(a: DateTime, b: DateTime)
    requires Valid(a) && Valid(b)
    ensures FieldsLess(a, b) <==> Instant(a) < Instant(b)
    ensures a == b <==> Instant(a) == Instant(b)
  {
    if FieldsLess(a, b) {
      EarlierFields(a, b);
    } else if FieldsLess(b, a) {
      EarlierFields(b, a);
    } else {
      assert a == b;
    }
  }

  /******* The text *******/

  function Digit(n: nat): char
    requires n < 10
  {
    '0' + n as char
  }

  function Pad(n: nat, width: nat): (r: string)
    ensures |r| == width
  {
    if width == 0 then "" else Pad(n / 10, width - 1) + [Digit(n % 10)]
  }

  function Pow10(n: nat): nat {
    if n == 0 then 1 else 10 * Pow10(n - 1)
  }

  lemma {:induction false} PadOrder(n: nat, m: nat, width: nat)
    requires n < Pow10(width) && m < Pow10(width)
    ensures Less(Pad(n, width), Pad(m, width)) <==> n < m
    ensures Pad(n, width) == Pad(m, width) <==> n == m
  {
    if width > 0 {
      PadOrder(n / 10, m / 10, width - 1);
      var a, b := Pad(n / 10, width - 1), Pad(m / 10, width - 1);
      var x, y := [Digit(n % 10)], [Digit(m % 10)];
      LessPrefix(a, b, x, y);
      assert Less(x, y) <==> x[0] < y[0];
      assert (a + x)[..width - 1] == a && (b + y)[..width - 1] == b;
      assert (a + x)[width - 1] == x[0] && (b + y)[width - 1] == y[0];
    }
  }

  /** A field of fixed width, then the rest. */
  lemma {:induction false} FieldOrder(n: nat, m: nat, width: nat, r: string, s: string)
    requires n < Pow10(width) && m < Pow10(width)
    ensures Less(Pad(n, width) + r, Pad(m, width) + s) <==> n < m || (n == m && Less(r, s))
  {
    PadOrder(n, m, width);
    LessPrefix(Pad(n, width), Pad(m, width), r, s);
  }

  lemma {:induction false} SeparatorOrder(c: char, r: string, s: string)
    ensures Less([c] + r, [c] + s) <==> Less(r, s)
  {
    LessPrefix([c], [c], r, s);
    LessTotal([c], [c]);
  }

  function Fraction(t: DateTime): string {
    if t.micro == 0 then "" else "." + Pad(t.micro, 6)
  }

  const Utc := "+00:00"

  function TimeText(t: DateTime): string {
    Pad(t.hour, 2) + ([':'] + (Pad(t.minute, 2) + ([':'] + (Pad(t.second, 2) + (Fraction(t) + Utc)))))
  }

  /** datetime.isoformat of a UTC timestamp. */
  function Iso(t: DateTime): string {
    Pad(t.year, 4) + (['-'] + (Pad(t.month, 2) + (['-'] + (Pad(t.day, 2) + (['T'] + TimeText(t))))))
  }

  lemma {:induction false} Widths()
    ensures Pow10(2) == 100 && Pow10(4) == 10000 && Pow10(6) == 1_000_000
  {
    assert Pow10(3) == 1000;
    assert Pow10(5) == 100_000;
  }

  /** The offset sign sorts before the fraction's point, so a dropped zero fraction stays smallest. */
  lemma {:induction false} FractionOrder(a: DateTime, b: DateTime)
    requires Valid(a) && Valid(b)
    ensures Less(Fraction(a) + Utc, Fraction(b) + Utc) <==> a.micro < b.micro
  {
    Widths();
    LessTotal(Utc, Utc);
    if a.micro == 0 && b.micro == 0 {
      assert Fraction(a) + Utc == Utc && Fraction(b) + Utc == Utc;
    } else if a.micro == 0 || b.micro == 0 {
      assert a.micro == 0 ==> (Fraction(a) + Utc)[0] == '+' && (Fraction(b) + Utc)[0] == '.';
      assert b.micro == 0 ==> (Fraction(b) + Utc)[0] == '+' && (Fraction(a) + Utc)[0] == '.';
    } else {
      assert Fraction(a) + Utc == ['.'] + (Pad(a.micro, 6) + Utc);
      assert Fraction(b) + Utc == ['.'] + (Pad(b.micro, 6) + Utc);
      SeparatorOrder('.', Pad(a.micro, 6) + Utc, Pad(b.micro, 6) + Utc);
      FieldOrder(a.micro, b.micro, 6, Utc, Utc);
    }
  }

  lemma {:induction false} TimeTextOrder(a: DateTime, b: DateTime)
    requires Valid(a) && Valid(b)
    ensures Less(TimeText(a), TimeText(b)) <==> TimeLess(a, b) || (SameTime(a, b) && a.micro < b.micro)
  {
    Widths();
    var a3, b3 := Fraction(a) + Utc, Fraction(b) + Utc;
    var a2, b2 := Pad(a.second, 2) + a3, Pad(b.second, 2) + b3;
    var a1, b1 := Pad(a.minute, 2) + ([':'] + a2), Pad(b.minute, 2) + ([':'] + b2);
    FractionOrder(a, b);
    FieldOrder(a.second, b.second, 2, a3, b3);
    SeparatorOrder(':', a2, b2);
    FieldOrder(a.minute, b.minute, 2, [':'] + a2, [':'] + b2);
    SeparatorOrder(':', a1, b1);
    FieldOrder(a.hour, b.hour, 2, [':'] + a1, [':'] + b1);
  }

  lemma {:induction false} IsoOrder(a: DateTime, b: DateTime)
    requires Valid(a) && Valid(b)
    ensures Less(Iso(a), Iso(b)) <==> FieldsLess(a, b)
  {
    Widths();
    var a3, b3 := ['T'] + TimeText(a), ['T'] + TimeText(b);
    var a2, b2 := Pad(a.day, 2) + a3, Pad(b.day, 2) + b3;
    var a1, b1 := Pad(a.month, 2) + (['-'] + a2), Pad(b.month, 2) + (['-'] + b2);
    TimeTextOrder(a, b);
    SeparatorOrder('T', TimeText(a), TimeText(b));
    FieldOrder(a.day, b.day, 2, a3, b3);
    SeparatorOrder('-', a2, b2);
    FieldOrder(a.month, b.month, 2, ['-'] + a2, ['-'] + b2);
    SeparatorOrder('-', a1, b1);
    FieldOrder(a.year, b.year, 4, ['-'] + a1, ['-'] + b1);
  }

  /******* The clock *******/

  /** The next microsecond, with every carry. */
  function Next(t: DateTime): DateTime {
    if t.micro + 1 < 1_000_000 then t.(micro := t.micro + 1)
    else if t.second + 1 < 60 then t.(micro := 0, second := t.second + 1)
    else if t.minute + 1 < 60 then t.(micro := 0, second := 0, minute := t.minute + 1)
    else if t.hour + 1 < 24 then t.(micro := 0, second := 0, minute := 0, hour := t.hour + 1)
    else NextDay(t).(micro := 0, second := 0, minute := 0, hour := 0)
  }

  function NextDay(t: DateTime): DateTime {
    if t.day + 1 <= DaysInMonth(t.year, t.month) then t.(day := t.day + 1)
    else if t.month + 1 <= 12 then t.(day := 1, month := t.month + 1)
    else t.(day := 1, month := 1, year := t.year + 1)
  }

  lemma {:induction false} DaysTick(t: DateTime)
    requires Valid(t)
    ensures Ordinal(NextDay(t)) == Ordinal(t) + 1
  {
    if t.day == DaysInMonth(t.year, t.month) && t.month == 12 {
      YearLength(t.year);
    }
  }

  /** Instants count the microseconds: the clock's next tick is the next instant, over the whole calendar. */
  lemma {:induction false} ClockTicks(t: DateTime)
    requires Valid(t)
    ensures Instant(Next(t)) == Instant(t) + 1
  {
    DaysTick(t);
    hide DaysInMonth, Ordinal;
    if t.micro == 999_999 && t.second == 59 && t.minute == 59 && t.hour == 23 {
      assert Ordinal(Next(t)) == Ordinal(NextDay(t)) by { SameDay(Next(t), NextDay(t)); }
    } else {
      SameDay(Next(t), t);
    }
  }

  lemma {:induction false} SameDay(a: DateTime, b: DateTime)
    requires a.year == b.year && a.month == b.month && a.day == b.day
    ensures Ordinal(a) == Ordinal(b)
  {
  }

  /******* Reading a stored text *******/

  /** A decimal number of a fixed width, and what follows. */
  function ReadDecimal(s: string): nat {
    if s == [] then 0
    else
      var d := s[|s| - 1];
      ReadDecimal(s[..|s| - 1]) * 10 + (if '0' <= d <= '9' then d as int - '0' as int else 0)
  }

  function Number(s: string, width: nat): Option<(nat, string)> {
    if |s| < width then None else Some((ReadDecimal(s[..width]), s[width..]))
  }

  function Skip(s: Option<(nat, string)>, c: char): string {
    if s.Some? && s.value.1 != [] && s.value.1[0] == c then s.value.1[1..] else []
  }

  /** Date and time after section 5.6 of RFC 3339, with an optional fraction of six digits, in UTC. */
  function ReadIso(s: string): Option<DateTime> {
    var year := Number(s, 4);
    var month := Number(Skip(year, '-'), 2);
    var day := Number(Skip(month, '-'), 2);
    if year.None? || month.None? || day.None? then None
    else ReadTime(year.value.0, month.value.0, day.value.0, Skip(day, 'T'))
  }

  function ReadTime(year: nat, month: nat, day: nat, s: string): Option<DateTime> {
    var hour := Number(s, 2);
    var minute := Number(Skip(hour, ':'), 2);
    var second := Number(Skip(minute, ':'), 2);
    if hour.None? || minute.None? || second.None? then None
    else
      var micro := ReadFraction(second.value.1);
      if micro.None? then None
      else Some(DateTime(year, month, day, hour.value.0, minute.value.0, second.value.0, micro.value))
  }

  function ReadFraction(s: string): Option<nat> {
    if s == Utc then Some(0)
    else if s == [] || s[0] != '.' then None
    else
      var micro := Number(s[1..], 6);
      if micro.None? || micro.value.1 != Utc then None else Some(micro.value.0)
  }

  lemma {:induction false} PadReads(n: nat, width: nat)
    requires n < Pow10(width)
    ensures ReadDecimal(Pad(n, width)) == n
  {
    if width > 0 {
      PadReads(n / 10, width - 1);
      var s := Pad(n, width);
      assert s[..|s| - 1] == Pad(n / 10, width - 1) && s[|s| - 1] == Digit(n % 10);
    }
  }

  lemma {:induction false} NumberReads(n: nat, width: nat, rest: string)
    requires n < Pow10(width)
    ensures Number(Pad(n, width) + rest, width) == Some((n, rest))
  {
    PadReads(n, width);
    hide Pad, ReadDecimal, Pow10;
    assert (Pad(n, width) + rest)[..width] == Pad(n, width) && (Pad(n, width) + rest)[width..] == rest;
  }

  lemma {:induction false} SkipReads(n: nat, c: char, rest: string)
    ensures Skip(Some((n, [c] + rest)), c) == rest
  {
    assert ([c] + rest)[1..] == rest;
  }

  lemma {:induction false} FractionReads(t: DateTime)
    requires t.micro < 1_000_000
    ensures ReadFraction(Fraction(t) + Utc) == Some(t.micro)
  {
    Widths();
    if t.micro == 0 {
      assert Fraction(t) + Utc == Utc;
    } else {
      NumberReads(t.micro, 6, Utc);
      hide Number, Pad;
      var s := Fraction(t) + Utc;
      assert s == ['.'] + (Pad(t.micro, 6) + Utc);
      assert s[1..] == Pad(t.micro, 6) + Utc && s[0] == '.' && Utc[0] == '+';
    }
  }

  lemma {:induction false} TimeReads(t: DateTime)
    requires Valid(t)
    ensures ReadTime(t.year, t.month, t.day, TimeText(t)) == Some(t)
  {
    Widths();
    FractionReads(t);
    var fraction := Fraction(t) + Utc;
    var seconds := Pad(t.second, 2) + fraction;
    var minutes := Pad(t.minute, 2) + ([':'] + seconds);
    NumberReads(t.hour, 2, [':'] + minutes);
    SkipReads(t.hour, ':', minutes);
    NumberReads(t.minute, 2, [':'] + seconds);
    SkipReads(t.minute, ':', seconds);
    NumberReads(t.second, 2, fraction);
    hide Number, Skip, ReadFraction, Fraction, Pad, Pow10;
  }

  /** A stored text says which date and time it is. */
  lemma {:induction false} IsoReads(t: DateTime)
    requires Valid(t)
    ensures ReadIso(Iso(t)) == Some(t)
  {
    Widths();
    TimeReads(t);
    var time := TimeText(t);
    var day := Pad(t.day, 2) + (['T'] + time);
    var month := Pad(t.month, 2) + (['-'] + day);
    NumberReads(t.year, 4, ['-'] + month);
    SkipReads(t.year, '-', month);
    assert t.day < 100 && t.month < 100 && t.year < 10000;
    NumberReads(t.month, 2, ['-'] + day);
    SkipReads(t.month, '-', day);
    NumberReads(t.day, 2, ['T'] + time);
    SkipReads(t.day, 'T', time);
    hide Number, Skip, ReadTime, TimeText, Pad, Pow10;
  }

  /** Comparing the stored texts compares the instants. */
  lemma {:induction false} TextOrderIsChronological(a: DateTime, b: DateTime)
    requires Valid(a) && Valid(b)
    ensures Less(Iso(a), Iso(b)) <==> Instant(a) < Instant(b)
    ensures Iso(a) == Iso(b) <==> Instant(a) == Instant(b)
  {
    IsoOrder(a, b);
    IsoOrder(b, a);
    FieldsAreChronological(a, b);
    FieldsAreChronological(b, a);
    LessTotal(Iso(a), Iso(b));
  }

  /**
    The stale-lease comparison `beat < cut` of the lease store and the `beat >= cut` of the lease
    validator decide exactly whether the beat is older than the limit, in seconds, before now.
  */
  lemma {:induction false} StaleComparison(beat: DateTime, now: DateTime, cut: DateTime, limit: nat)
    requires Valid(beat) && Valid(now) && Valid(cut)
    requires Instant(cut) == Instant(now) - limit * 1_000_000
    ensures Less(Iso(beat), Iso(cut)) <==> Instant(now) - Instant(beat) > limit * 1_000_000
    ensures (Less(Iso(cut), Iso(beat)) || Iso(cut) == Iso(beat)) <==> Instant(now) - Instant(beat) <= limit * 1_000_000
  {
    TextOrderIsChronological(beat, cut);
    TextOrderIsChronological(cut, beat);
  }
}
