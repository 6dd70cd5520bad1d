/**
  Polish locale tables, the calendar arithmetic behind Python's `date`, and the
  day-range collapser that turns a set of dates into text such as "Pn-śr, Pt".
  Dates handed to the collapser are day ordinals as `date.toordinal()` counts
  them (0001-01-01 is day 1, a Monday).
*/
module Dates {
  import opened Wrappers
  import opened Text

  // ---------------------------------------------------------------- locale tables

  /** Genitive month names, as they follow a day number. */
  const PolishMonths: map<string, int> := map[
    "stycznia" := 1, "lutego" := 2, "marca" := 3, "kwietnia" := 4,
    "maja" := 5, "czerwca" := 6, "lipca" := 7, "sierpnia" := 8,
    "września" := 9, "października" := 10, "listopada" := 11, "grudnia" := 12]

  /** Three-letter month abbreviations. */
  const PolishMonthsShort: map<string, int> := map[
    "sty" := 1, "lut" := 2, "mar" := 3, "kwi" := 4,
    "maj" := 5, "cze" := 6, "lip" := 7, "sie" := 8,
    "wrz" := 9, "paź" := 10, "lis" := 11, "gru" := 12]

  /** Weekday names, Monday first. */
  const Weekdays: seq<string> :=
    ["poniedziałek", "wtorek", "środa", "czwartek", "piątek", "sobota", "niedziela"]

  /** Short weekday labels, Monday first. */
  const WeekdaysShort: seq<string> := ["Pn", "Wt", "Śr", "Cz", "Pt", "So", "Nd"]

  /** The short labels in lower case, as `str.lower()` gives them. */
  const WeekdaysShortLower: seq<string> := ["pn", "wt", "śr", "cz", "pt", "so", "nd"]

  /** `m` maps exactly the twelve names of `names`, the n-th of them to month n. */
  ghost predicate MonthTable(m: map<string, int>, names: seq<string>)
  {
    && |names| == 12
    && (forall k :: k in m <==> k in names)
    && (forall i :: 0 <= i < 12 ==> m[names[i]] == i + 1)
  }

  /** A month table of this shape is one-to-one onto 1..12. */
  lemma MonthTableBijective(m: map<string, int>, names: seq<string>)
    requires MonthTable(m, names)
    ensures forall k :: k in m ==> 1 <= m[k] <= 12 && names[m[k] - 1] == k
    ensures forall n :: 1 <= n <= 12 ==> n in m.Values
    ensures forall a, b :: a in m && b in m && m[a] == m[b] ==> a == b
  {
    forall k | k in m ensures 1 <= m[k] <= 12 && names[m[k] - 1] == k {
      var i :| 0 <= i < 12 && names[i] == k;
      assert m[names[i]] == i + 1;
    }
    forall n | 1 <= n <= 12 ensures n in m.Values {
      assert names[n - 1] in m && m[names[n - 1]] == n;
    }
  }

  const MonthNames: seq<string> := ["stycznia", "lutego", "marca", "kwietnia", "maja", "czerwca", "lipca",
    "sierpnia", "września", "października", "listopada", "grudnia"]

  const MonthAbbreviations: seq<string> := ["sty", "lut", "mar", "kwi", "maj", "cze", "lip", "sie", "wrz",
    "paź", "lis", "gru"]

  /** `POLISH_MONTHS` maps twelve distinct names one-to-one onto the months 1..12. */
  lemma PolishMonthsBijective()
    ensures MonthTable(PolishMonths, MonthNames)
    ensures forall k :: k in PolishMonths ==> 1 <= PolishMonths[k] <= 12
    ensures forall a, b :: a in PolishMonths && b in PolishMonths && PolishMonths[a] == PolishMonths[b] ==> a == b
  {
    MonthTableBijective(PolishMonths, MonthNames);
  }

  /** `POLISH_MONTHS_SHORT` maps twelve distinct abbreviations one-to-one onto the months 1..12. */
  lemma PolishMonthsShortBijective()
    ensures MonthTable(PolishMonthsShort, MonthAbbreviations)
    ensures forall k :: k in PolishMonthsShort ==> 1 <= PolishMonthsShort[k] <= 12
    ensures forall a, b ::
      a in PolishMonthsShort && b in PolishMonthsShort && PolishMonthsShort[a] == PolishMonthsShort[b] ==> a == b
  {
    MonthTableBijective(PolishMonthsShort, MonthAbbreviations);
  }

  /**
    `POLISH_MONTHS.get(name.lower(), 1)`: the month a genitive month name
    stands for, case-insensitively, and 1 for a name the table lacks
    (MonthNumberOfTable).
  */
  function MonthNumber(name: string): int
  {
    var key := Lower(name);
    if key in PolishMonths then PolishMonths[key] else 1
  }

  /** The month of a name is its `POLISH_MONTHS` entry, found whatever its case, and January for a name the table lacks. */
  lemma MonthNumberOfTable(name: string)
    ensures 1 <= MonthNumber(name) <= 12
    ensures Lower(name) in PolishMonths ==> MonthNumber(name) == PolishMonths[Lower(name)]
    ensures Lower(name) !in PolishMonths ==> MonthNumber(name) == 1
    ensures forall i :: 0 <= i < 12 && Lower(name) == MonthNames[i] ==> MonthNumber(name) == i + 1
  {
    PolishMonthsBijective();
  }

  // ---------------------------------------------------------------- calendar

  datatype Date = Date(year: int, month: int, day: int)

  predicate IsLeap(y: int)
  {
    y % 4 == 0 && (y % 100 != 0 || y % 400 == 0)
  }

  function DaysInMonth(y: int, m: int): int
    requires 1 <= m <= 12
  {
    if m == 2 then (if IsLeap(y) then 29 else 28)
    else if m == 4 || m == 6 || m == 9 || m == 11 then 30
    else 31
  }

  /** A date Python's `date` can hold: years 1 to 9999 of the proleptic Gregorian calendar. */
  predicate ValidDate(d: Date)
  {
    1 <= d.year <= 9999 && 1 <= d.month <= 12 && 1 <= d.day <= DaysInMonth(d.year, d.month)
  }

  /** Python's `<` on dates: by year, then month, then day. */
  predicate Before(a: Date, b: Date)
  {
    a.year < b.year || (a.year == b.year && (a.month < b.month || (a.month == b.month && a.day < b.day)))
  }

  function DaysBeforeYear(y: int): int
    requires y >= 1
  {
    var p := y - 1;
    365 * p + p / 4 - p / 100 + p / 400
  }

  function DaysBeforeMonth(y: int, m: int): (n: int)
    requires 1 <= m <= 12
    ensures n >= 0
  {
    if m == 1 then 0 else DaysBeforeMonth(y, m - 1) + DaysInMonth(y, m - 1)
  }

  /** `date.toordinal()`: the number of the day counting 0001-01-01 as day 1. */
  function Ordinal(d: Date): int
    requires ValidDate(d)
  {
    DaysBeforeYear(d.year) + DaysBeforeMonth(d.year, d.month) + d.day
  }

  lemma {:induction false} DaysBeforeMonthGrows(y: int, m: int, m': int)
    requires 1 <= m < m' <= 12
    ensures DaysBeforeMonth(y, m) + DaysInMonth(y, m) <= DaysBeforeMonth(y, m')
    decreases m' - m
  {
    if m + 1 < m' {
      DaysBeforeMonthGrows(y, m + 1, m');
    }
  }

  lemma DaysBeforeDecember(y: int)
    ensures DaysBeforeMonth(y, 12) == if IsLeap(y) then 335 else 334
  {
    var f := if IsLeap(y) then 1 else 0;
    assert DaysBeforeMonth(y, 2) == 31;
    assert DaysBeforeMonth(y, 3) == 59 + f;
    assert DaysBeforeMonth(y, 4) == 90 + f;
    assert DaysBeforeMonth(y, 5) == 120 + f;
    assert DaysBeforeMonth(y, 6) == 151 + f;
    assert DaysBeforeMonth(y, 7) == 181 + f;
    assert DaysBeforeMonth(y, 8) == 212 + f;
    assert DaysBeforeMonth(y, 9) == 243 + f;
    assert DaysBeforeMonth(y, 10) == 273 + f;
    assert DaysBeforeMonth(y, 11) == 304 + f;
  }

  lemma YearLength(y: int)
    requires y >= 1
    ensures DaysBeforeYear(y + 1) == DaysBeforeYear(y) + DaysBeforeMonth(y, 12) + 31
  {
    DaysBeforeDecember(y);
    var p := y - 1;
    Div4Step(p);
    Div100Step(p);
    Div400Step(p);
    MultiplesNest(y);
  }

  /** One more year adds a multiple of 4 exactly when that year is one; likewise for 100 and 400. */
  lemma Div4Step(p: nat)
    ensures (p + 1) / 4 == p / 4 + (if (p + 1) % 4 == 0 then 1 else 0)
  {
  }

  lemma Div100Step(p: nat)
    ensures (p + 1) / 100 == p / 100 + (if (p + 1) % 100 == 0 then 1 else 0)
  {
  }

  lemma Div400Step(p: nat)
    ensures (p + 1) / 400 == p / 400 + (if (p + 1) % 400 == 0 then 1 else 0)
  {
  }

  lemma MultiplesNest(y: int)
    ensures y % 400 == 0 ==> y % 100 == 0
    ensures y % 100 == 0 ==> y % 4 == 0
  {
  }

  lemma {:induction false} DaysBeforeYearGrows(y: int, y': int)
    requires 1 <= y < y'
    ensures DaysBeforeYear(y) + DaysBeforeMonth(y, 12) + 31 <= DaysBeforeYear(y')
    decreases y' - y
  {
    YearLength(y);
    if y + 1 < y' {
      DaysBeforeYearGrows(y + 1, y');
    }
  }

  lemma OrdinalBefore(a: Date, b: Date)
    requires ValidDate(a) && ValidDate(b) && Before(a, b)
    ensures Ordinal(a) < Ordinal(b)
  {
    if a.year < b.year {
      DaysBeforeYearGrows(a.year, b.year);
      if a.month < 12 {
        DaysBeforeMonthGrows(a.year, a.month, 12);
      }
    } else if a.month < b.month {
      DaysBeforeMonthGrows(a.year, a.month, b.month);
    }
  }

  /** Ordinals follow the calendar order: an earlier date has a smaller ordinal, and back. */
  lemma OrdinalOrder(a: Date, b: Date)
    requires ValidDate(a) && ValidDate(b)
    ensures Before(a, b) <==> Ordinal(a) < Ordinal(b)
    ensures a == b <==> Ordinal(a) == Ordinal(b)
  {
    if Before(a, b) {
      OrdinalBefore(a, b);
    } else if Before(b, a) {
      OrdinalBefore(b, a);
    } else {
      assert a == b;
    }
  }

  /** The calendar day after `d`. */
  function NextDay(d: Date): (n: Date)
    requires ValidDate(d)
    ensures ValidDate(n) || d == Date(9999, 12, 31)
  {
    if d.day < DaysInMonth(d.year, d.month) then Date(d.year, d.month, d.day + 1)
    else if d.month < 12 then Date(d.year, d.month + 1, 1)
    else Date(d.year + 1, 1, 1)
  }

  /** `(b - a).days == 1` holds exactly when `b` is the calendar day after `a`. */
  lemma OrdinalNextDay(a: Date, b: Date)
    requires ValidDate(a) && ValidDate(b)
    ensures Ordinal(b) - Ordinal(a) == 1 <==> b == NextDay(a)
  {
    var n := NextDay(a);
    if ValidDate(n) {
      OrdinalOfNextDay(a);
      OrdinalOrder(n, b);
    } else {
      OrdinalOrder(a, b);
    }
  }

  lemma OrdinalOfNextDay(a: Date)
    requires ValidDate(a) && ValidDate(NextDay(a))
    ensures Ordinal(NextDay(a)) == Ordinal(a) + 1
  {
    if a.day == DaysInMonth(a.year, a.month) && a.month == 12 {
      YearLength(a.year);
    }
  }

  /** `date.weekday()` of the day with this ordinal: Monday is 0, Sunday 6. */
  function Weekday(ordinal: int): (w: int)
    ensures 0 <= w < 7
  {
    (ordinal + 6) % 7
  }

  /** `weekday_name`: the Polish name of the weekday of `d`. */
  function WeekdayName(d: Date): (name: string)
    requires ValidDate(d)
    ensures name in Weekdays
  {
    Weekdays[Weekday(Ordinal(d))]
  }

  /** `weekday_short`: the short Polish label of the weekday of `d`. */
  function WeekdayShort(d: Date): (short: string)
    requires ValidDate(d)
    ensures short in WeekdaysShort
  {
    WeekdaysShort[Weekday(Ordinal(d))]
  }

  /**
    The weekday labels depend on the day of the week and on nothing else: two
    dates get the same name (and the same short label) exactly when they fall
    on the same weekday.
  */
  lemma WeekdayLabelsDetermined(a: Date, b: Date)
    requires ValidDate(a) && ValidDate(b)
    ensures WeekdayName(a) == WeekdayName(b) <==> Weekday(Ordinal(a)) == Weekday(Ordinal(b))
    ensures WeekdayShort(a) == WeekdayShort(b) <==> Weekday(Ordinal(a)) == Weekday(Ordinal(b))
  {
    var i, j := Weekday(Ordinal(a)), Weekday(Ordinal(b));
    if i != j {
      assert Weekdays[i][0] != Weekdays[j][0] || |Weekdays[i]| != |Weekdays[j]|;
      assert WeekdaysShort[i][0] != WeekdaysShort[j][0] || WeekdaysShort[i][1] != WeekdaysShort[j][1];
    }
  }

  /** The labels are tied to the calendar: 24 January 2026 is a Saturday. */
  lemma WeekdayAnchor()
    ensures WeekdayName(Date(2026, 1, 24)) == "sobota"
    ensures WeekdayShort(Date(2026, 1, 24)) == "So"
  {
    assert Ordinal(Date(2026, 1, 24)) == 739640;
  }

  /**
    The day after a date with the `i`-th label has the next label in the
    tables, Sunday wrapping round to Monday.
  */
  lemma WeekdayNextDay(d: Date, i: int)
    requires ValidDate(d) && ValidDate(NextDay(d)) && 0 <= i < 7
    requires WeekdayName(d) == Weekdays[i] || WeekdayShort(d) == WeekdaysShort[i]
    ensures WeekdayName(NextDay(d)) == Weekdays[(i + 1) % 7]
    ensures WeekdayShort(NextDay(d)) == WeekdaysShort[(i + 1) % 7]
  {
    var n := NextDay(d);
    var w, w' := Weekday(Ordinal(d)), Weekday(Ordinal(n));
    WeekdayOfNextDay(d);
    NextLabels(w, w', i);
  }

  /** The weekday of the next calendar day is the next weekday. */
  lemma WeekdayOfNextDay(d: Date)
    requires ValidDate(d) && ValidDate(NextDay(d))
    ensures Weekday(Ordinal(NextDay(d))) == (Weekday(Ordinal(d)) + 1) % 7
  {
    OrdinalOfNextDay(d);
    WeekdaySucc(Ordinal(d));
  }

  /** The entry after the one a label names is at the next weekday. */
  lemma NextLabels(w: int, w': int, i: int)
    requires 0 <= w < 7 && w' == (w + 1) % 7 && 0 <= i < 7
    requires Weekdays[w] == Weekdays[i] || WeekdaysShort[w] == WeekdaysShort[i]
    ensures Weekdays[w'] == Weekdays[(i + 1) % 7] && WeekdaysShort[w'] == WeekdaysShort[(i + 1) % 7]
  {
    LabelIndex(w, i);
  }

  /** Two weekdays with the same name or the same short label are the same weekday. */
  lemma LabelIndex(w: int, i: int)
    requires 0 <= w < 7 && 0 <= i < 7
    requires Weekdays[w] == Weekdays[i] || WeekdaysShort[w] == WeekdaysShort[i]
    ensures w == i
  {
  }

  /** The day after weekday `w` is weekday `w + 1`, Sunday wrapping round to Monday. */
  lemma WeekdaySucc(ordinal: int)
    ensures Weekday(ordinal + 1) == (Weekday(ordinal) + 1) % 7
  {
  }

  /** A week later the weekday labels are the same. */
  lemma WeekdayPeriodic(ordinal: int, weeks: int)
    ensures Weekday(ordinal + 7 * weeks) == Weekday(ordinal)
  {
  }

  // ---------------------------------------------------------------- ISO text

  function Digits2(n: nat): (r: string)
    requires n < 100
    ensures |r| == 2 && AllDigits(r)
  {
    [DigitChar(n / 10), DigitChar(n % 10)]
  }

  function Digits4(n: nat): (r: string)
    requires n < 10000
    ensures |r| == 4 && AllDigits(r)
  {
    Digits2(n / 100) + Digits2(n % 100)
  }

  /** `f"{n:02d}"` of a number below 100 is its two zero-padded digits. */
  lemma Format02Digits(n: nat)
    requires n < 100
    ensures Format02(n) == Digits2(n)
  {
    if n < 10 {
      Format02OneDigit(n);
    } else {
      assert Format02(n) == NatToString(n);
      NatToStringDigits2(n);
    }
  }

  lemma Format02OneDigit(n: nat)
    requires n < 10
    ensures Format02(n) == Digits2(n)
  {
    assert NatToString(n) == [DigitChar(n)];
    assert Format02(n) == "0" + NatToString(n);
    assert n / 10 == 0 && n % 10 == n;
  }

  lemma NatToStringDigits2(n: nat)
    requires 10 <= n < 100
    ensures NatToString(n) == Digits2(n)
  {
    assert NatToString(n) == NatToString(n / 10) + [DigitChar(n % 10)];
  }

  lemma DecimalPlaces(n: nat)
    ensures n / 10 / 10 == n / 100
    ensures n / 10 % 10 == n % 100 / 10
    ensures n % 100 % 10 == n % 10
  {
    var a, b := n / 100, n % 100;
    assert n == 100 * a + b;
    var c, d := b / 10, b % 10;
    assert b == 10 * c + d && 0 <= d < 10 && 0 <= c < 10;
    assert n == 10 * (10 * a + c) + d;
    assert n / 10 == 10 * a + c;
    assert n % 10 == d;
  }

  /** `str(n)` of a four-digit number is its four digits. */
  lemma NatToStringDigits4(n: nat)
    requires 1000 <= n <= 9999
    ensures NatToString(n) == Digits4(n)
  {
    DecimalPlaces(n);
    assert NatToString(n) == NatToString(n / 10) + [DigitChar(n % 10)];
    assert NatToString(n / 10) == NatToString(n / 100) + [DigitChar(n / 10 % 10)];
    NatToStringDigits2(n / 100);
  }

  /** `s.zfill(2)` of a day or month written with one or two digits is the two-digit form. */
  lemma ZFillDigits(s: string, n: nat)
    requires n < 100 && (s == Digits2(n) || (n < 10 && s == [DigitChar(n)]))
    ensures ZFill2(s) == Digits2(n)
  {
  }

  /** `date.isoformat()`: "YYYY-MM-DD", every field zero-padded. */
  function IsoFormat(d: Date): (s: string)
    requires ValidDate(d)
    ensures |s| == 10
  {
    Digits4(d.year) + "-" + Digits2(d.month) + "-" + Digits2(d.day)
  }

  /**
    `date.fromisoformat` on the calendar form "YYYY-MM-DD": four, two and two
    ASCII digits separated by hyphens, naming a real date; None where Python
    raises ValueError.
  */
  function ParseIso(s: string): (r: Option<Date>)
    ensures r.Some? ==> ValidDate(r.value)
  {
    if |s| == 10 && s[4] == '-' && s[7] == '-' && AllDigits(s[..4]) && AllDigits(s[5..7]) && AllDigits(s[8..]) then
      var d := Date(DigitsValue(s[..4]), DigitsValue(s[5..7]), DigitsValue(s[8..]));
      if ValidDate(d) then Some(d) else None
    else None
  }

  lemma DigitsValue2(s: string)
    requires |s| == 2 && AllDigits(s)
    ensures DigitsValue(s) == 10 * DigitValue(s[0]) + DigitValue(s[1])
  {
    assert s[..1][..0] == [];
    assert DigitsValue(s[..1]) == DigitValue(s[0]);
  }

  lemma DigitsValue4(s: string)
    requires |s| == 4 && AllDigits(s)
    ensures DigitsValue(s) == 100 * DigitsValue(s[..2]) + DigitsValue(s[2..])
  {
    assert s[..3][..2] == s[..2];
    assert s[..3][..2][..1][..0] == [];
    DigitsValue2(s[..2]);
    DigitsValue2(s[2..]);
  }

  lemma Digits2Value(n: nat)
    requires n < 100
    ensures DigitsValue(Digits2(n)) == n
  {
    DigitsValue2(Digits2(n));
  }

  lemma Digits2Canonical(s: string)
    requires |s| == 2 && AllDigits(s)
    ensures DigitsValue(s) < 100 && Digits2(DigitsValue(s)) == s
  {
    DigitsValue2(s);
  }

  /** Formatting a date and reading it back gives the same date. */
  lemma IsoRoundTrip(d: Date)
    requires ValidDate(d)
    ensures ParseIso(IsoFormat(d)) == Some(d)
  {
    var s := IsoFormat(d);
    assert s[..4] == Digits4(d.year) && s[5..7] == Digits2(d.month) && s[8..] == Digits2(d.day);
    Digits4Value(d.year);
    Digits2Value(d.month);
    Digits2Value(d.day);
  }

  lemma Digits4Value(n: nat)
    requires n < 10000
    ensures DigitsValue(Digits4(n)) == n
  {
    var s := Digits4(n);
    DigitsValue4(s);
    assert s[..2] == Digits2(n / 100) && s[2..] == Digits2(n % 100);
    Digits2Value(n / 100);
    Digits2Value(n % 100);
  }

  /** Only the canonical text of a date is accepted: a string that parses is that date's isoformat. */
  lemma IsoCanonical(s: string)
    requires ParseIso(s).Some?
    ensures IsoFormat(ParseIso(s).value) == s
  {
    var d := ParseIso(s).value;
    DigitsValue4(s[..4]);
    Digits2Canonical(s[..4][..2]);
    Digits2Canonical(s[..4][2..]);
    Digits2Canonical(s[5..7]);
    Digits2Canonical(s[8..]);
    assert d.year / 100 == DigitsValue(s[..4][..2]) && d.year % 100 == DigitsValue(s[..4][2..]);
    assert Digits4(d.year) == s[..4][..2] + s[..4][2..] == s[..4];
    assert s == s[..4] + "-" + s[5..7] + "-" + s[8..];
  }


  // ---------------------------------------------------------------- collapsing days

  ghost predicate StrictlyIncreasing(s: seq<int>)
  {
    forall i, j :: 0 <= i < j < |s| ==> s[i] < s[j]
  }

  /** `a` and `b` hold the same values, whatever their order and repeats. */
  ghost predicate SameElements(a: seq<int>, b: seq<int>)
  {
    (forall e :: e in a ==> e in b) && (forall e :: e in b ==> e in a)
  }

  lemma SameElementsEmpty(a: seq<int>, b: seq<int>)
    requires SameElements(a, b)
    ensures a == [] <==> b == []
  {
    if a != [] {
      var x := a[0];
      assert x in a && x in b;
    }
    if b != [] {
      var x := b[0];
      assert x in b && x in a;
    }
  }

  /** Inserts `x` into an increasing sequence unless it is already there. */
  function InsertDistinct(x: int, s: seq<int>): (r: seq<int>)
    requires StrictlyIncreasing(s)
    ensures StrictlyIncreasing(r) && forall e :: e in r <==> e == x || e in s
  {
    if s == [] then [x]
    else if x < s[0] then
      assert forall j :: 0 <= j < |s| ==> x < s[j] by {
        assert forall j :: 0 < j < |s| ==> s[0] < s[j];
      }
      [x] + s
    else if x == s[0] then
      s
    else
      var t := InsertDistinct(x, s[1..]);
      InsertDistinctAbove(x, s, t);
      [s[0]] + t
  }

  lemma InsertDistinctAbove(x: int, s: seq<int>, t: seq<int>)
    requires StrictlyIncreasing(s) && s != [] && s[0] < x
    requires StrictlyIncreasing(t) && forall e :: e in t <==> e == x || e in s[1..]
    ensures StrictlyIncreasing([s[0]] + t)
    ensures forall e :: e in [s[0]] + t <==> e == x || e in s
  {
    forall j | 0 <= j < |t| ensures s[0] < t[j] {
      assert t[j] in t;
      if t[j] != x {
        var k :| 0 <= k < |s[1..]| && s[1..][k] == t[j];
        assert s[k + 1] == t[j];
      }
    }
    assert s == [s[0]] + s[1..];
  }

  /** `sorted(set(xs))`: the distinct elements of `xs` in increasing order. */
  function SortedDistinct(xs: seq<int>): (r: seq<int>)
    ensures StrictlyIncreasing(r) && forall e :: e in r <==> e in xs
    decreases |xs|
  {
    if xs == [] then []
    else
      assert xs == xs[..|xs| - 1] + [xs[|xs| - 1]];
      InsertDistinct(xs[|xs| - 1], SortedDistinct(xs[..|xs| - 1]))
  }

  /** An increasing sequence is determined by its elements. */
  lemma {:induction false} IncreasingUnique(a: seq<int>, b: seq<int>)
    requires StrictlyIncreasing(a) && StrictlyIncreasing(b) && SameElements(a, b)
    ensures a == b
    decreases |a|
  {
    SameElementsEmpty(a, b);
    if a != [] {
      SameFirst(a, b);
      SameTail(a, b);
      SameTail(b, a);
      IncreasingUnique(a[1..], b[1..]);
      assert a == [a[0]] + a[1..] && b == [b[0]] + b[1..];
    }
  }

  /** Two increasing sequences with the same elements start with the same, smallest, element. */
  lemma SameFirst(a: seq<int>, b: seq<int>)
    requires StrictlyIncreasing(a) && StrictlyIncreasing(b) && SameElements(a, b) && a != [] && b != []
    ensures a[0] == b[0]
  {
    assert a[0] in a && b[0] in b;
    var i :| 0 <= i < |b| && b[i] == a[0];
    var j :| 0 <= j < |a| && a[j] == b[0];
    assert a[0] <= a[j] && b[0] <= b[i];
  }

  /** Every element of `a` after the first is an element of `b` after the first. */
  lemma SameTail(a: seq<int>, b: seq<int>)
    requires StrictlyIncreasing(a) && StrictlyIncreasing(b) && SameElements(a, b)
    requires a != [] && b != [] && a[0] == b[0]
    ensures StrictlyIncreasing(a[1..])
    ensures forall e :: e in a[1..] ==> e in b[1..]
  {
    forall e | e in a[1..] ensures e in b[1..] {
      var k :| 0 <= k < |a[1..]| && a[1..][k] == e;
      assert a[0] < a[k + 1] && e in a;
      var m :| 0 <= m < |b| && b[m] == e;
      assert m != 0 && b[1..][m - 1] == e;
    }
  }

  /** Sorting and de-duplicating depends only on which values occur. */
  lemma SortedDistinctOfElems(a: seq<int>, b: seq<int>)
    requires SameElements(a, b)
    ensures SortedDistinct(a) == SortedDistinct(b)
  {
    IncreasingUnique(SortedDistinct(a), SortedDistinct(b));
  }

  /**
    The runs the loop at dates.py lines 48-59 builds: each value extends the current
    run when it is one day after the run's last day, and starts a new run
    otherwise.
  */
  function Runs(s: seq<int>): (rs: seq<seq<int>>)
    requires s != []
    ensures rs != [] && forall k :: 0 <= k < |rs| ==> rs[k] != []
    decreases |s|
  {
    if |s| == 1 then [[s[0]]]
    else
      var rs := Runs(s[..|s| - 1]);
      var cur := rs[|rs| - 1];
      var d := s[|s| - 1];
      if d - cur[|cur| - 1] == 1 then rs[..|rs| - 1] + [cur + [d]] else rs + [[d]]
  }

  /** Appending a day either extends the last run or opens a new one. */
  lemma RunsSnoc(s: seq<int>, d: int)
    requires s != []
    ensures var rs := Runs(s); var last := rs[|rs| - 1];
      Runs(s + [d]) == if d - last[|last| - 1] == 1 then rs[..|rs| - 1] + [last + [d]] else rs + [[d]]
  {
    assert (s + [d])[..|s|] == s;
  }

  function Flatten(rs: seq<seq<int>>): seq<int>
  {
    if rs == [] then [] else Flatten(rs[..|rs| - 1]) + rs[|rs| - 1]
  }

  lemma FlattenSnoc(rs: seq<seq<int>>, r: seq<int>)
    ensures Flatten(rs + [r]) == Flatten(rs) + r
  {
    assert (rs + [r])[..|rs|] == rs;
  }

  /** Consecutive days, each one day after the one before. */
  ghost predicate Consecutive(run: seq<int>)
  {
    forall j :: 0 <= j < |run| - 1 ==> run[j + 1] == run[j] + 1
  }

  /**
    Each run is non-empty and consecutive days, and no run starts on the day
    after the one before it ends.
  */
  ghost predicate Linked(rs: seq<seq<int>>)
  {
    && (forall k :: 0 <= k < |rs| ==> rs[k] != [] && Consecutive(rs[k]))
    && (forall k :: 0 < k < |rs| ==> rs[k][0] != rs[k - 1][|rs[k - 1]| - 1] + 1)
  }

  /** `rs` splits `s` into maximal runs: read in order the runs give back `s`, and they are linked. */
  ghost predicate MaximalRuns(s: seq<int>, rs: seq<seq<int>>)
  {
    Flatten(rs) == s && Linked(rs)
  }

  /** One step of the run-building loop, on the runs found in the first `i` values. */
  lemma RunsStep(s: seq<int>, i: int, runs: seq<seq<int>>, current: seq<int>)
    requires 1 <= i < |s| && current != [] && runs + [current] == Runs(s[..i])
    ensures s[i] - current[|current| - 1] == 1 ==> Runs(s[..i + 1]) == runs + [current + [s[i]]]
    ensures s[i] - current[|current| - 1] != 1 ==> Runs(s[..i + 1]) == runs + [current] + [[s[i]]]
  {
    var p := s[..i + 1];
    assert p[..i] == s[..i] && p[i] == s[i];
    assert (runs + [current])[..|runs|] == runs;
  }

  lemma {:induction false} RunsFlatten(s: seq<int>)
    requires s != []
    ensures Flatten(Runs(s)) == s
    decreases |s|
  {
    if |s| == 1 {
      assert Flatten(Runs(s)) == Flatten([]) + [s[0]];
    } else {
      var p := s[..|s| - 1];
      RunsFlatten(p);
      var qs := Runs(p);
      var cur := qs[|qs| - 1];
      var d := s[|s| - 1];
      var init := qs[..|qs| - 1];
      assert qs == init + [cur];
      FlattenSnoc(init, cur);
      if d - cur[|cur| - 1] == 1 {
        FlattenSnoc(init, cur + [d]);
      } else {
        FlattenSnoc(qs, [d]);
      }
      assert s == p + [d];
    }
  }

  lemma {:induction false} RunsConsecutive(s: seq<int>)
    requires s != []
    ensures Linked(Runs(s))
    decreases |s|
  {
    if |s| > 1 {
      var p := s[..|s| - 1];
      RunsConsecutive(p);
      var qs := Runs(p);
      var cur := qs[|qs| - 1];
      var d := s[|s| - 1];
      if d - cur[|cur| - 1] == 1 {
        LinkedExtend(qs, d);
      } else {
        LinkedOpen(qs, d);
      }
    }
  }

  /** A day right after the last run's end lengthens that run and keeps the runs linked. */
  lemma LinkedExtend(qs: seq<seq<int>>, d: int)
    requires qs != [] && Linked(qs)
    requires d == qs[|qs| - 1][|qs[|qs| - 1]| - 1] + 1
    ensures Linked(qs[..|qs| - 1] + [qs[|qs| - 1] + [d]])
  {
    var cur := qs[|qs| - 1];
    var ext := cur + [d];
    var rs := qs[..|qs| - 1] + [ext];
    forall j | 0 <= j < |ext| - 1
      ensures ext[j + 1] == ext[j] + 1
    {
      if j < |cur| - 1 {
        assert ext[j + 1] == cur[j + 1] && ext[j] == cur[j];
      }
    }
    forall k | 0 <= k < |rs|
      ensures rs[k] != [] && Consecutive(rs[k])
      ensures k > 0 ==> rs[k][0] != rs[k - 1][|rs[k - 1]| - 1] + 1
    {
      if k < |rs| - 1 {
        assert rs[k] == qs[k];
      } else {
        assert rs[k] == ext && ext[0] == cur[0];
      }
      if 0 < k {
        assert rs[k - 1] == qs[k - 1];
      }
    }
  }

  /** Any other day opens a new run of its own and keeps the runs linked. */
  lemma LinkedOpen(qs: seq<seq<int>>, d: int)
    requires qs != [] && Linked(qs)
    requires d != qs[|qs| - 1][|qs[|qs| - 1]| - 1] + 1
    ensures Linked(qs + [[d]])
  {
    var rs := qs + [[d]];
    forall k | 0 <= k < |rs|
      ensures rs[k] != [] && Consecutive(rs[k])
      ensures k > 0 ==> rs[k][0] != rs[k - 1][|rs[k - 1]| - 1] + 1
    {
      if k < |qs| {
        assert rs[k] == qs[k];
      }
      if 0 < k {
        assert rs[k - 1] == qs[k - 1];
      }
    }
  }

  /** The runs built for a sequence are its maximal runs. */
  lemma RunsAreMaximal(s: seq<int>)
    requires s != []
    ensures MaximalRuns(s, Runs(s))
  {
    RunsFlatten(s);
    RunsConsecutive(s);
  }

  /** The short label of the weekday of the day with this ordinal. */
  function ShortLabel(ordinal: int): (short: string)
    ensures short in WeekdaysShort
  {
    WeekdaysShort[Weekday(ordinal)]
  }

  /**
    The text for one run (dates.py, lines 62-76): a run of two or more days is the first
    day's label lower-cased and capitalised, a hyphen, and the last day's label
    lower-cased; a single day keeps its label as it is.
  */
  function RunLabel(run: seq<int>): string
    requires run != []
  {
    if |run| >= 2 then Capitalize(Lower(ShortLabel(run[0]))) + "-" + Lower(ShortLabel(run[|run| - 1]))
    else ShortLabel(run[0])
  }

  function RunLabels(rs: seq<seq<int>>): (parts: seq<string>)
    requires forall k :: 0 <= k < |rs| ==> rs[k] != []
    ensures |parts| == |rs| && forall k :: 0 <= k < |rs| ==> parts[k] == RunLabel(rs[k])
  {
    seq(|rs|, k requires 0 <= k < |rs| => RunLabel(rs[k]))
  }

  lemma RunLabelsPrefix(rs: seq<seq<int>>, k: nat)
    requires forall i :: 0 <= i < |rs| ==> rs[i] != []
    requires k < |rs|
    ensures RunLabels(rs[..k + 1]) == RunLabels(rs[..k]) + [RunLabel(rs[k])]
  {
    var a, b := RunLabels(rs[..k + 1]), RunLabels(rs[..k]) + [RunLabel(rs[k])];
    assert |a| == |b|;
    forall i | 0 <= i < |a| ensures a[i] == b[i] {
      assert rs[..k + 1][i] == rs[i];
    }
  }

  /**
    What `collapse_days` returns: "" for no dates, otherwise the labels of the
    maximal runs of the sorted distinct dates, joined with ", ".
  */
  function CollapsedDays(dates: seq<int>): string
  {
    if dates == [] then ""
    else
      var s := SortedDistinct(dates);
      SameElementsEmpty(dates, s);
      Join(RunLabels(Runs(s)), ", ")
  }

  /** The lower-case and capitalised forms of the seven short labels. */
  lemma ShortLabelCases(w: int)
    requires 0 <= w < 7
    ensures Lower(WeekdaysShort[w]) == WeekdaysShortLower[w]
    ensures Capitalize(WeekdaysShortLower[w]) == WeekdaysShort[w]
  {
    var s, l := WeekdaysShort[w], WeekdaysShortLower[w];
    assert |s| == 2 && |l| == 2;
    assert LowerChar(s[0]) == l[0] && LowerChar(s[1]) == l[1];
    assert UpperChar(l[0]) == s[0] && LowerChar(l[1]) == l[1];
    assert Lower(l[1..]) == l[1..];
  }

  /**
    A run of two days and a run of three or more are written alike: the first
    day's label as published, a hyphen, the last day's label in lower case.
  */
  lemma RangeLabel(run: seq<int>)
    requires |run| >= 2
    ensures RunLabel(run) == WeekdaysShort[Weekday(run[0])] + "-" + WeekdaysShortLower[Weekday(run[|run| - 1])]
  {
    ShortLabelCases(Weekday(run[0]));
    ShortLabelCases(Weekday(run[|run| - 1]));
  }

  /** The first loop of `collapse_days` (dates.py, lines 48-59): the runs of an increasing sequence. */
  method GroupRuns(ds: seq<int>) returns (runs: seq<seq<int>>)
    requires ds != []
    ensures runs == Runs(ds)
  {
    runs := [];
    var current := [ds[0]];
    var i := 1;
    assert ds[..1] == [ds[0]];
    while i < |ds|
      invariant 1 <= i <= |ds|
      invariant current != [] && runs + [current] == Runs(ds[..i])
    {
      var d := ds[i];
      var prev := current[|current| - 1];
      RunsStep(ds, i, runs, current);
      if d - prev == 1 {
        current := current + [d];
      } else {
        runs := runs + [current];
        current := [d];
      }
      i := i + 1;
    }
    runs := runs + [current];
    assert ds[..|ds|] == ds;
  }

  /** A single day is written with its short label as published. */
  lemma OneDayLabel(s: seq<int>)
    requires |s| == 1
    ensures Join(RunLabels(Runs(s)), ", ") == WeekdaysShort[Weekday(s[0])]
  {
    assert Runs(s) == [[s[0]]];
    assert RunLabels(Runs(s)) == [RunLabel([s[0]])];
  }

  /**
    `collapse_days` (dates.py, lines 31-78): the single-date shortcut and the two loops
    compute CollapsedDays.
  */
  method CollapseDays(dates: seq<int>) returns (result: string)
    ensures result == CollapsedDays(dates)
  {
    if |dates| == 0 {
      return "";
    }
    var ds := SortedDistinct(dates);
    SameElementsEmpty(dates, ds);
    if |ds| == 1 {
      OneDayLabel(ds);
      return WeekdaysShort[Weekday(ds[0])];
    }

    var runs := GroupRuns(ds);

    var parts: seq<string> := [];
    for k := 0 to |runs|
      invariant parts == RunLabels(runs[..k])
    {
      var run := runs[k];
      RunLabelsPrefix(runs, k);
      if |run| >= 3 {
        var start := Lower(WeekdaysShort[Weekday(run[0])]);
        var end := Lower(WeekdaysShort[Weekday(run[|run| - 1])]);
        parts := parts + [Capitalize(start) + "-" + end];
      } else if |run| == 2 {
        var start := Lower(WeekdaysShort[Weekday(run[0])]);
        var end := Lower(WeekdaysShort[Weekday(run[|run| - 1])]);
        parts := parts + [Capitalize(start) + "-" + end];
      } else {
        parts := parts + [WeekdaysShort[Weekday(run[0])]];
      }
    }
    assert runs[..|runs|] == runs;
    result := Join(parts, ", ");
  }

  /** The result depends only on which dates occur: order and repeats do not matter. */
  lemma CollapseSetInvariant(a: seq<int>, b: seq<int>)
    requires SameElements(a, b)
    ensures CollapsedDays(a) == CollapsedDays(b)
  {
    SortedDistinctOfElems(a, b);
    SameElementsEmpty(a, b);
  }

  /** With one distinct date, the result is that date's short label as published. */
  lemma CollapseSingle(dates: seq<int>, d: int)
    requires dates != [] && forall i :: 0 <= i < |dates| ==> dates[i] == d
    ensures CollapsedDays(dates) == WeekdaysShort[Weekday(d)]
  {
    assert SameElements(dates, [d]) by {
      assert dates[0] == d;
    }
    SortedDistinctOfElems(dates, [d]);
    IncreasingUnique(SortedDistinct([d]), [d]);
  }

  /** For dates already increasing and distinct, sorting and de-duplicating changes nothing. */
  lemma CollapseIncreasing(xs: seq<int>)
    requires xs != [] && StrictlyIncreasing(xs)
    ensures CollapsedDays(xs) == Join(RunLabels(Runs(xs)), ", ")
  {
    IncreasingUnique(SortedDistinct(xs), xs);
  }

  /** Consecutive days are increasing. */
  lemma {:induction false} ConsecutiveIncreasing(s: seq<int>)
    requires Consecutive(s)
    ensures StrictlyIncreasing(s)
    decreases |s|
  {
    if |s| > 1 {
      var p := s[..|s| - 1];
      assert Consecutive(p);
      ConsecutiveIncreasing(p);
      forall i, j | 0 <= i < j < |s| ensures s[i] < s[j] {
        if j < |s| - 1 {
          assert p[i] < p[j];
        } else if i < |s| - 2 {
          assert p[i] < p[|s| - 2];
        }
      }
    }
  }

  /** Consecutive days form a single run. */
  lemma {:induction false} RunsOfConsecutive(s: seq<int>)
    requires s != [] && Consecutive(s)
    ensures Runs(s) == [s]
    decreases |s|
  {
    if |s| > 1 {
      var p := s[..|s| - 1];
      var d := s[|s| - 1];
      assert Consecutive(p);
      RunsOfConsecutive(p);
      assert s == p + [d] && d - p[|p| - 1] == 1;
      RunsSnoc(p, d);
      assert [p][..0] + [p + [d]] == [s];
    } else {
      assert s == [s[0]];
    }
  }

  /** Days no two of which are adjacent each form a run of their own. */
  lemma {:induction false} RunsOfSeparate(s: seq<int>)
    requires s != [] && forall i :: 0 < i < |s| ==> s[i] - s[i - 1] != 1
    ensures |Runs(s)| == |s| && forall k :: 0 <= k < |s| ==> Runs(s)[k] == [s[k]]
    decreases |s|
  {
    if |s| > 1 {
      var p := s[..|s| - 1];
      RunsOfSeparate(p);
      var qs := Runs(p);
      assert qs[|qs| - 1] == [p[|p| - 1]];
      assert Runs(s) == qs + [[s[|s| - 1]]];
    }
  }

  /**
    Consecutive days, two or more of them, are written as one range: the first
    day's label as published, a hyphen, the last day's label in lower case.
  */
  lemma CollapseRange(s: seq<int>)
    requires |s| >= 2 && Consecutive(s)
    ensures CollapsedDays(s) == WeekdaysShort[Weekday(s[0])] + "-" + WeekdaysShortLower[Weekday(s[|s| - 1])]
  {
    ConsecutiveIncreasing(s);
    CollapseIncreasing(s);
    RunsOfConsecutive(s);
    RangeLabel(s);
    assert RunLabels([s]) == [RunLabel(s)];
  }

  /** The published short labels of the days of `s`, in order. */
  function ShortLabels(s: seq<int>): (labels: seq<string>)
    ensures |labels| == |s| && forall i :: 0 <= i < |s| ==> labels[i] == WeekdaysShort[Weekday(s[i])]
  {
    seq(|s|, i requires 0 <= i < |s| => ShortLabel(s[i]))
  }

  lemma SingleDayLabels(rs: seq<seq<int>>, s: seq<int>)
    requires |rs| == |s| && forall k :: 0 <= k < |s| ==> rs[k] == [s[k]]
    ensures RunLabels(rs) == ShortLabels(s)
  {
    var a, b := RunLabels(rs), ShortLabels(s);
    forall k | 0 <= k < |s| ensures a[k] == b[k] {
      SingleLabel(s[k]);
    }
  }

  lemma SingleLabel(x: int)
    ensures RunLabel([x]) == ShortLabel(x)
  {
  }

  /**
    Increasing days no two of which are adjacent are written one by one, each
    with its label as published (capital first letter included), joined with ", ".
  */
  lemma CollapseSeparate(s: seq<int>)
    requires s != [] && StrictlyIncreasing(s) && forall i :: 0 < i < |s| ==> s[i] - s[i - 1] != 1
    ensures CollapsedDays(s) == Join(ShortLabels(s), ", ")
  {
    CollapseIncreasing(s);
    RunsOfSeparate(s);
    SingleDayLabels(Runs(s), s);
  }

  /** Monday to Wednesday of the first week of year 1: one run of three days. */
  lemma CollapseExampleRange()
    ensures CollapsedDays([1, 2, 3]) == "Pn-śr"
  {
    assert WeekdaysShort[Weekday(1)] == "Pn" && WeekdaysShortLower[Weekday(3)] == "śr";
    assert "Pn" + "-" + "śr" == "Pn-śr";
    CollapseRange([1, 2, 3]);
  }

  /** Thursday and Friday, given out of order: a run of two days reads like a longer range. */
  lemma CollapseExamplePair()
    ensures CollapsedDays([5, 4]) == "Cz-pt"
  {
    assert WeekdaysShort[Weekday(4)] == "Cz" && WeekdaysShortLower[Weekday(5)] == "pt";
    assert "Cz" + "-" + "pt" == "Cz-pt";
    assert SameElements([5, 4], [4, 5]);
    CollapseSetInvariant([5, 4], [4, 5]);
    CollapseRange([4, 5]);
  }

  /**
    Monday, Wednesday and Friday with Wednesday given twice: three single days,
    each keeping its label's capital letter.
  */
  lemma CollapseExampleSingles()
    ensures CollapsedDays([1, 3, 5, 3]) == "Pn, Śr, Pt"
  {
    SinglesRepeated();
    SeparateDaysText();
    SeparateDays();
  }

  lemma SeparateDays()
    ensures CollapsedDays([1, 3, 5]) == Join(ShortLabels([1, 3, 5]), ", ")
  {
    CollapseSeparate([1, 3, 5]);
  }

  lemma SinglesRepeated()
    ensures CollapsedDays([1, 3, 5, 3]) == CollapsedDays([1, 3, 5])
  {
    assert SameElements([1, 3, 5, 3], [1, 3, 5]);
    CollapseSetInvariant([1, 3, 5, 3], [1, 3, 5]);
  }

  lemma SeparateDaysText()
    ensures Join(ShortLabels([1, 3, 5]), ", ") == "Pn, Śr, Pt"
  {
    assert WeekdaysShort[Weekday(1)] == "Pn" && WeekdaysShort[Weekday(3)] == "Śr";
    assert WeekdaysShort[Weekday(5)] == "Pt";
    assert Join(["Pn", "Śr", "Pt"], ", ") == "Pn, Śr, Pt" by {
      assert ["Pn", "Śr", "Pt"][1..] == ["Śr", "Pt"] && ["Śr", "Pt"][1..] == ["Pt"];
    }
    var labels := ShortLabels([1, 3, 5]);
    assert labels[0] == "Pn" && labels[1] == "Śr" && labels[2] == "Pt";
    assert labels == ["Pn", "Śr", "Pt"];
  }
}
