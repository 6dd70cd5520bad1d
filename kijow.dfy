/**
  The Kijów parser: the page embeds its repertoire as JavaScript records with
  a film name, a `D.M.YYYY` date and an hour; each becomes one screening record.
*/
module Kijow {
  import opened Wrappers
  import opened Text
  import opened Dates
  import opened Records
  import opened Seqs
  import opened Parsing
  import opened Titles

  /** The Name, Date and Hour groups of one match of the JavaScript data pattern (the Id is unused). */
  datatype Entry = Entry(name: string, date: string, hour: string)

  /**
    `D.M.YYYY` reordered to `YYYY-MM-DD`, day and month zero-filled to two
    places and the year kept as written; None when the text is not exactly
    three dot-separated parts.
  */
  function IsoOfDotted(text: string): Option<string>
  {
    var parts := Split(text, ".");
    if |parts| != 3 then None else Some(parts[2] + "-" + ZFill2(parts[1]) + "-" + ZFill2(parts[0]))
  }

  /** The record one entry yields, if any. `unescape` decodes HTML entities. */
  function EntryRecord(e: Entry, unescape: string -> string): Option<Record>
  {
    match IsoOfDotted(e.date)
    case None => None
    case Some(iso) => Some(Record(NormalizeTitle(unescape(e.name)), iso, e.hour, DayOfIso(iso)))
  }

  function Outcomes(entries: seq<Entry>, unescape: string -> string): (os: seq<Option<Record>>)
    ensures |os| == |entries|
  {
    seq(|entries|, i requires 0 <= i < |entries| => EntryRecord(entries[i], unescape))
  }

  /** What `parse` returns for the page whose data matches are `entries`. */
  function ParsedRecords(entries: seq<Entry>, unescape: string -> string): seq<Record>
  {
    Somes(Outcomes(entries, unescape))
  }

  /** `parse`: one record per entry whose date has three parts, in entry order. */
  method Parse(entries: seq<Entry>, unescape: string -> string) returns (results: seq<Record>)
    ensures results == ParsedRecords(entries, unescape)
  {
    results := [];
    for i := 0 to |entries|
      invariant results == Somes(Outcomes(entries, unescape)[..i])
    {
      var record := ParseEntry(entries[i], unescape);
      ParseStep(entries, unescape, i, record);
      if record.Some? {
        results := results + [record.value];
      }
    }
    assert Outcomes(entries, unescape)[..|entries|] == Outcomes(entries, unescape);
  }

  /** The body of the loop over the data matches, for one entry. */
  method ParseEntry(e: Entry, unescape: string -> string) returns (record: Option<Record>)
    ensures record == EntryRecord(e, unescape)
  {
    var title := NormalizeTitle(unescape(e.name));
    var parts := Split(e.date, ".");
    if |parts| != 3 {
      return None;
    }
    var isoDate := parts[2] + "-" + ZFill2(parts[1]) + "-" + ZFill2(parts[0]);
    var dayName: string;
    var d := ParseIso(isoDate);
    if d.Some? {
      dayName := WeekdayName(d.value);
    } else {
      dayName := "";
    }
    return Some(Record(title, isoDate, e.hour, dayName));
  }

  /** One more entry adds its record, if it has one, at the end. */
  lemma ParseStep(entries: seq<Entry>, unescape: string -> string, i: nat, record: Option<Record>)
    requires i < |entries|
    requires record == EntryRecord(entries[i], unescape)
    ensures Somes(Outcomes(entries, unescape)[..i + 1])
      == Somes(Outcomes(entries, unescape)[..i]) + if record.Some? then [record.value] else []
  {
    SomesPrefix(Outcomes(entries, unescape), i);
  }

  /** Each entry gives at most one record, and every record comes from some entry. */
  lemma ParsedRecordsFromEntries(entries: seq<Entry>, unescape: string -> string, r: Record)
    ensures |ParsedRecords(entries, unescape)| <= |entries|
    ensures r in ParsedRecords(entries, unescape) <==> exists i :: 0 <= i < |entries| && EntryRecord(entries[i], unescape) == Some(r)
  {
    var os := Outcomes(entries, unescape);
    SomesFrom(os, r);
    assert forall i :: 0 <= i < |entries| ==> os[i] == EntryRecord(entries[i], unescape);
  }

  lemma NoDotInDigits(s: string)
    requires AllDigits(s)
    ensures '.' !in s
  {
  }

  /** A calendar date written `D.M.YYYY`, day and month in one or two digits, becomes its ISO text. */
  lemma DottedDateIso(d: Date, dayText: string, monthText: string)
    requires ValidDate(d) && 1000 <= d.year
    requires dayText == Digits2(d.day) || (d.day < 10 && dayText == [DigitChar(d.day)])
    requires monthText == Digits2(d.month) || (d.month < 10 && monthText == [DigitChar(d.month)])
    ensures IsoOfDotted(dayText + "." + monthText + "." + Digits4(d.year)) == Some(IsoFormat(d))
  {
    NoDotInDigits(dayText);
    NoDotInDigits(monthText);
    NoDotInDigits(Digits4(d.year));
    SplitThree(dayText, monthText, Digits4(d.year), '.');
    ZFillDigits(dayText, d.day);
    ZFillDigits(monthText, d.month);
  }

  /** Such an entry's record carries the ISO date and the date's weekday. */
  lemma DottedDateRecord(e: Entry, unescape: string -> string, d: Date, dayText: string, monthText: string)
    requires ValidDate(d) && 1000 <= d.year
    requires dayText == Digits2(d.day) || (d.day < 10 && dayText == [DigitChar(d.day)])
    requires monthText == Digits2(d.month) || (d.month < 10 && monthText == [DigitChar(d.month)])
    requires e.date == dayText + "." + monthText + "." + Digits4(d.year)
    ensures EntryRecord(e, unescape)
      == Some(Record(NormalizeTitle(unescape(e.name)), IsoFormat(d), e.hour, WeekdayName(d)))
  {
    DottedDateIso(d, dayText, monthText);
    DayOfIsoFormat(d);
  }

  /** A date text without exactly two dots is not three parts, so the entry gives no record. */
  lemma UndottedDateSkipped(e: Entry, unescape: string -> string)
    requires multiset(e.date)['.'] != 2
    ensures EntryRecord(e, unescape).None?
  {
    SplitCharCount(e.date, '.');
  }

  /** "31.2.2026" is three parts but not a calendar date: the record is kept with an empty day. */
  lemma NonCalendarDateKept(name: string, hour: string, unescape: string -> string)
    ensures EntryRecord(Entry(name, "31.2.2026", hour), unescape)
      == Some(Record(NormalizeTitle(unescape(name)), "2026-02-31", hour, ""))
  {
    NonCalendarDateIso();
    NotCalendarDate();
  }

  lemma NonCalendarDateIso()
    ensures IsoOfDotted("31.2.2026") == Some("2026-02-31")
  {
    ExampleTexts();
    DottedParts("31", "2", "2026");
    ZFillExamples();
  }

  lemma ExampleTexts()
    ensures "31.2.2026" == "31" + "." + "2" + "." + "2026"
    ensures "2026" + "-" + "02" + "-" + "31" == "2026-02-31"
  {
  }

  lemma ZFillExamples()
    ensures ZFill2("2") == "02" && ZFill2("31") == "31"
  {
  }

  /** Three dot-free parts joined by dots are reordered as year, zero-filled month, zero-filled day. */
  lemma DottedParts(day: string, month: string, year: string)
    requires '.' !in day && '.' !in month && '.' !in year
    ensures IsoOfDotted(day + "." + month + "." + year) == Some(year + "-" + ZFill2(month) + "-" + ZFill2(day))
  {
    SplitThree(day, month, year, '.');
  }

  lemma NotCalendarDate()
    ensures ParseIso("2026-02-31").None?
  {
    var iso := "2026-02-31";
    assert iso[..4] == "2026" && iso[5..7] == "02" && iso[8..] == "31";
    assert DigitsValue("02") == 2 by {
      assert "02"[..1] == "0";
    }
    assert DigitsValue("31") == 31 by {
      assert "31"[..1] == "3";
    }
  }
}
