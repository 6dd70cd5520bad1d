/**
  The Paradox parser: each `data-date` row attribute opens a block that runs
  to the next one; a block with a three-part date, a time and a title gives
  one screening record. The date is reordered to year-month-day as written,
  without zero-padding.
*/
module Paradox {
  import opened Wrappers
  import opened Text
  import opened Dates
  import opened Records
  import opened Seqs
  import opened Parsing
  import opened Titles

  /**
    What the page's block text yields to the two searches: the `item-time`
    text and the text after the `item-title` class, absent when the pattern
    does not occur in the block.
  */
  datatype Finders = Finders(timeIn: string -> Option<string>, titleIn: string -> Option<string>)

  /** `D.M.YYYY` reordered as `YYYY-M-D`, each part kept as written; None unless there are exactly three parts. */
  function IsoUnpadded(text: string): Option<string>
  {
    var parts := Split(text, ".");
    if |parts| != 3 then None else Some(parts[2] + "-" + parts[1] + "-" + parts[0])
  }

  /** The record of one block: its date text comes from the match, the rest from the block. */
  function BlockRecord(dateText: string, block: string, find: Finders): Option<Record>
  {
    match IsoUnpadded(dateText)
    case None => None
    case Some(iso) =>
      match find.timeIn(block)
      case None => None
      case Some(time) =>
        match find.titleIn(block)
        case None => None
        case Some(title) => Some(Record(NormalizeTitle(title), iso, time, DayOfIso(iso)))
  }

  /** The outcome of every match, in page order. */
  function Outcomes(page: string, ms: seq<Match>, find: Finders): (os: seq<Option<Record>>)
    requires WellFormed(page, ms)
    ensures |os| == |ms|
  {
    seq(|ms|, i requires 0 <= i < |ms| => BlockRecord(ms[i].group, BlockAfter(page, ms, i), find))
  }

  /** What `parse` returns for `page`, whose `data-date` matches are `ms`. */
  function ParsedRecords(page: string, ms: seq<Match>, find: Finders): seq<Record>
    requires WellFormed(page, ms)
  {
    Somes(Outcomes(page, ms, find))
  }

  /** `parse`: one pass over the matches, slicing each block and keeping the records that complete. */
  method Parse(page: string, ms: seq<Match>, find: Finders) returns (results: seq<Record>)
    requires WellFormed(page, ms)
    ensures results == ParsedRecords(page, ms, find)
  {
    results := [];
    for i := 0 to |ms|
      invariant results == Somes(Outcomes(page, ms, find)[..i])
    {
      var start := ms[i].end;
      var end := if i + 1 < |ms| then ms[i + 1].start else |page|;
      var block := page[start..end];
      var record := ParseBlock(ms[i].group, block, find);
      ParseStep(page, ms, find, i, record);
      if record.Some? {
        results := results + [record.value];
      }
    }
    assert Outcomes(page, ms, find)[..|ms|] == Outcomes(page, ms, find);
  }

  /** One more match appends its block's record, if it has one. */
  lemma ParseStep(page: string, ms: seq<Match>, find: Finders, i: nat, record: Option<Record>)
    requires WellFormed(page, ms) && i < |ms|
    requires record == BlockRecord(ms[i].group, BlockAfter(page, ms, i), find)
    ensures Somes(Outcomes(page, ms, find)[..i + 1])
      == Somes(Outcomes(page, ms, find)[..i]) + if record.Some? then [record.value] else []
  {
    SomesPrefix(Outcomes(page, ms, find), i);
  }

  /** The body of the loop in `parse` for one block; `None` where it continues without appending. */
  method ParseBlock(dateText: string, block: string, find: Finders) returns (record: Option<Record>)
    ensures record == BlockRecord(dateText, block, find)
  {
    var parts := Split(dateText, ".");
    if |parts| != 3 {
      return None;
    }
    var isoDate := parts[2] + "-" + parts[1] + "-" + parts[0];
    var dayName: string;
    var d := ParseIso(isoDate);
    if d.Some? {
      dayName := WeekdayName(d.value);
    } else {
      dayName := "";
    }
    var time := find.timeIn(block);
    if time.None? {
      return None;
    }
    var title := find.titleIn(block);
    if title.None? {
      return None;
    }
    record := Some(Record(NormalizeTitle(title.value), isoDate, time.value, dayName));
  }

  // ---------------------------------------------------------------- properties

  /** At most one record per match; a record is in the result exactly when some match's block yields it. */
  lemma ParsedRecordsFromBlocks(page: string, ms: seq<Match>, find: Finders, r: Record)
    requires WellFormed(page, ms)
    ensures |ParsedRecords(page, ms, find)| <= |ms|
    ensures r in ParsedRecords(page, ms, find)
      <==> exists i :: 0 <= i < |ms| && BlockRecord(ms[i].group, BlockAfter(page, ms, i), find) == Some(r)
  {
    var os := Outcomes(page, ms, find);
    SomesFrom(os, r);
    assert forall i :: 0 <= i < |ms| ==> os[i] == BlockRecord(ms[i].group, BlockAfter(page, ms, i), find);
  }

  /** Three dot-free parts are reordered year, month, day, with nothing padded. */
  lemma DottedUnpadded(day: string, month: string, year: string)
    requires '.' !in day && '.' !in month && '.' !in year
    ensures IsoUnpadded(day + "." + month + "." + year) == Some(year + "-" + month + "-" + day)
  {
    SplitThree(day, month, year, '.');
  }

  /** A date text without exactly two dots is not three parts, so its block gives no record. */
  lemma UndottedDateSkipped(dateText: string, block: string, find: Finders)
    requires multiset(dateText)['.'] != 2
    ensures BlockRecord(dateText, block, find).None?
  {
    SplitCharCount(dateText, '.');
  }

  /** A block without a time, or without a title, gives no record. */
  lemma MissingFieldSkipped(dateText: string, block: string, find: Finders)
    requires find.timeIn(block).None? || find.titleIn(block).None?
    ensures BlockRecord(dateText, block, find).None?
  {
  }

  /**
    A block with all three parts gives a record whose date is the reordered
    text, whether or not it names a calendar day; the day is that date's
    weekday when it does, and empty when it does not.
  */
  lemma CompleteBlockRecord(dateText: string, block: string, find: Finders)
    requires IsoUnpadded(dateText).Some? && find.timeIn(block).Some? && find.titleIn(block).Some?
    ensures var r := BlockRecord(dateText, block, find);
      var iso := IsoUnpadded(dateText).value;
      && r.Some?
      && r.value.date == iso
      && r.value.time == find.timeIn(block).value
      && r.value.title == NormalizeTitle(find.titleIn(block).value)
      && (ParseIso(iso).Some? ==> r.value.day == WeekdayName(ParseIso(iso).value))
      && (ParseIso(iso).None? ==> r.value.day == "")
  {
  }

  /**
    The unpadded text of a one-digit day or month is not in ISO calendar form,
    so such a record's weekday is always empty.
  */
  lemma OneDigitFieldUnnamed(day: string, month: string, year: string)
    requires AllDigits(day) && AllDigits(month) && AllDigits(year)
    requires |day| == 1 || |month| == 1
    ensures ParseIso(year + "-" + month + "-" + day).None?
  {
    var iso := year + "-" + month + "-" + day;
    if ParseIso(iso).Some? {
      HyphenPositions(year, month, day);
    }
  }

  /** The two hyphens of `year-month-day` sit right after the year and right after the month. */
  lemma HyphenPositions(year: string, month: string, day: string)
    ensures var iso := year + "-" + month + "-" + day;
      iso[|year|] == '-' && iso[|year| + 1 + |month|] == '-'
      && iso[..|year|] == year && iso[|year| + 1..|year| + 1 + |month|] == month
  {
  }

  /** `"7.2.2026"` becomes `"2026-2-7"`. */
  lemma UnpaddedExample()
    ensures IsoUnpadded("7.2.2026") == Some("2026-2-7")
  {
    assert "7.2.2026" == "7" + "." + "2" + "." + "2026";
    DottedUnpadded("7", "2", "2026");
    assert "2026" + "-" + "2" + "-" + "7" == "2026-2-7";
  }
}
