/**
  The KIKA parser: each `repertoire-once row` block carries its ISO date in
  its class attribute; a block with a ticket-link title and a `godz.` time
  gives one screening record. The weekday is the page's own label when there
  is one, otherwise the weekday of the date.
*/
module Kika {
  import opened Wrappers
  import opened Text
  import opened Dates
  import opened Records
  import opened Seqs
  import opened Parsing
  import opened Titles

  /**
    What a block yields to the three searches: the title after `Kup bilet - `,
    the text before the comma after the calendar icon, and the `godz.` time;
    absent when the pattern does not occur in the block.
  */
  datatype Finders = Finders(
    titleIn: string -> Option<string>,
    dayIn: string -> Option<string>,
    timeIn: string -> Option<string>)

  /** The page's own weekday label, stripped and lower-cased; "" when the block has none. */
  function DayLabel(block: string, find: Finders): string
  {
    match find.dayIn(block)
    case Some(text) => Lower(Strip(text))
    case None => ""
  }

  /** The weekday of a record: the page's label unless it is empty, then the weekday of the date. */
  function DayOf(isoDate: string, block: string, find: Finders): string
  {
    var fromPage := DayLabel(block, find);
    if fromPage != "" then fromPage else DayOfIso(isoDate)
  }

  /** The record of one block; `isoDate` is the match's date group, kept as written. */
  function BlockRecord(isoDate: string, block: string, find: Finders): Option<Record>
  {
    match find.titleIn(block)
    case None => None
    case Some(title) =>
      match find.timeIn(block)
      case None => None
      case Some(time) => Some(Record(NormalizeTitle(title), isoDate, time, DayOf(isoDate, block, find)))
  }

  /** The outcome of every match, in page order. */
  function Outcomes(page: string, ms: seq<Match>, find: Finders): (os: seq<Option<Record>>)
    requires WellFormed(page, ms)
    ensures |os| == |ms|
  {
    seq(|ms|, i requires 0 <= i < |ms| => BlockRecord(ms[i].group, BlockAfter(page, ms, i), find))
  }

  /** What `parse` returns for `page`, whose row matches are `ms`. */
  function ParsedRecords(page: string, ms: seq<Match>, find: Finders): seq<Record>
    requires WellFormed(page, ms)
  {
    Somes(Outcomes(page, ms, find))
  }

  /** `parse`: one pass over the matches, slicing each block and keeping the records that complete. */
  method Parse(page: string, ms: seq<Match>, find: Finders) returns (results: seq<Record>)
    requires WellFormed(page, ms)
    ensures results == ParsedRecords(page, ms, find)
  {
    results := [];
    for i := 0 to |ms|
      invariant results == Somes(Outcomes(page, ms, find)[..i])
    {
      var start := ms[i].end;
      var end := if i + 1 < |ms| then ms[i + 1].start else |page|;
      var block := page[start..end];
      var record := ParseBlock(ms[i].group, block, find);
      ParseStep(page, ms, find, i, record);
      if record.Some? {
        results := results + [record.value];
      }
    }
    assert Outcomes(page, ms, find)[..|ms|] == Outcomes(page, ms, find);
  }

  /** One more match appends its block's record, if it has one. */
  lemma ParseStep(page: string, ms: seq<Match>, find: Finders, i: nat, record: Option<Record>)
    requires WellFormed(page, ms) && i < |ms|
    requires record == BlockRecord(ms[i].group, BlockAfter(page, ms, i), find)
    ensures Somes(Outcomes(page, ms, find)[..i + 1])
      == Somes(Outcomes(page, ms, find)[..i]) + if record.Some? then [record.value] else []
  {
    SomesPrefix(Outcomes(page, ms, find), i);
  }

  /** The body of the loop in `parse` for one block; `None` where it continues without appending. */
  method ParseBlock(isoDate: string, block: string, find: Finders) returns (record: Option<Record>)
    ensures record == BlockRecord(isoDate, block, find)
  {
    var titleMatch := find.titleIn(block);
    if titleMatch.None? {
      return None;
    }
    var title := NormalizeTitle(titleMatch.value);
    var dayName := "";
    var dayMatch := find.dayIn(block);
    if dayMatch.Some? {
      dayName := Lower(Strip(dayMatch.value));
    }
    if dayName == "" {
      var d := ParseIso(isoDate);
      if d.Some? {
        dayName := WeekdayName(d.value);
      }
    }
    var timeMatch := find.timeIn(block);
    if timeMatch.None? {
      return None;
    }
    record := Some(Record(title, isoDate, timeMatch.value, dayName));
  }

  // ---------------------------------------------------------------- properties

  /** At most one record per match; a record is in the result exactly when some match's block yields it. */
  lemma ParsedRecordsFromBlocks(page: string, ms: seq<Match>, find: Finders, r: Record)
    requires WellFormed(page, ms)
    ensures |ParsedRecords(page, ms, find)| <= |ms|
    ensures r in ParsedRecords(page, ms, find)
      <==> exists i :: 0 <= i < |ms| && BlockRecord(ms[i].group, BlockAfter(page, ms, i), find) == Some(r)
  {
    var os := Outcomes(page, ms, find);
    SomesFrom(os, r);
    assert forall i :: 0 <= i < |ms| ==> os[i] == BlockRecord(ms[i].group, BlockAfter(page, ms, i), find);
  }

  /** A block gives a record exactly when it has both a title and a time; the date is the match's, unchanged. */
  lemma BlockRecordWhen(isoDate: string, block: string, find: Finders)
    ensures BlockRecord(isoDate, block, find).Some? <==> find.titleIn(block).Some? && find.timeIn(block).Some?
    ensures BlockRecord(isoDate, block, find).Some? ==>
      var r := BlockRecord(isoDate, block, find).value;
      && r.title == NormalizeTitle(find.titleIn(block).value)
      && r.date == isoDate
      && r.time == find.timeIn(block).value
  {
  }

  /** A label the page gives, once stripped and lower-cased, is the weekday, whatever the date says. */
  lemma PageLabelWins(isoDate: string, block: string, find: Finders, text: string)
    requires find.dayIn(block) == Some(text) && Strip(text) != ""
    ensures DayOf(isoDate, block, find) == Lower(Strip(text))
  {
    assert |Lower(Strip(text))| == |Strip(text)| > 0;
  }

  /** Without a label, or with a blank one, a calendar date gives the weekday of that date. */
  lemma FallbackToDate(isoDate: string, block: string, find: Finders, d: Date)
    requires find.dayIn(block).None? || Strip(find.dayIn(block).value) == ""
    requires ParseIso(isoDate) == Some(d)
    ensures DayOf(isoDate, block, find) == WeekdayName(d)
  {
  }

  /**
    A record's weekday is empty only when the page gives no usable label and
    its date is not a calendar date.
  */
  lemma DayEmptyOnlyWithoutDate(isoDate: string, block: string, find: Finders)
    ensures DayOf(isoDate, block, find) == "" <==> DayLabel(block, find) == "" && ParseIso(isoDate).None?
  {
    if DayLabel(block, find) == "" && ParseIso(isoDate).Some? {
      assert DayOfIso(isoDate) in Weekdays;
    }
  }

  /** A weekday taken from the page is in lower case: lower-casing it again changes nothing. */
  lemma PageLabelLowerCase(isoDate: string, block: string, find: Finders)
    requires DayLabel(block, find) != ""
    ensures Lower(DayOf(isoDate, block, find)) == DayOf(isoDate, block, find)
  {
    LowerIdempotent(Strip(find.dayIn(block).value));
  }
}
