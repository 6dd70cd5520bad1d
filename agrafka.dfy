/**
  The Agrafka parser: every `repertoire` table carries its date in a `<h3>`
  heading such as "24 stycznia 2026 /piątek/" and one screening per row with
  an hour cell and a film link. A table without such a heading, or with fewer
  than four words in it, is skipped; a day that is not a number makes the
  whole parse fail.
*/
module Agrafka {
  import opened Wrappers
  import opened Text
  import opened Dates
  import opened Records
  import opened Seqs
  import opened Parsing
  import opened Titles

  /**
    What the page yields to the searches: a table's `<h3>` text, its rows,
    and a row's hour text and film-link text, absent when the pattern does
    not occur.
  */
  datatype Finders = Finders(
    h3In: string -> Option<string>,
    rowsIn: string -> seq<string>,
    hourIn: string -> Option<string>,
    titleIn: string -> Option<string>)

  /** The ISO date and the weekday name a table heading stands for. */
  datatype Heading = Heading(isoDate: string, day: string)

  /** The words of a heading once its slashes are spaces. */
  function HeaderWords(h3: string): (ws: seq<string>)
  {
    Words(Strip(ReplaceChar(h3, '/', ' ')))
  }

  /**
    Day number, month name, year and weekday are the first four words; the
    year is kept as written, an unknown month is January, and a day that
    `int` refuses is an error. Fewer than four words name no date.
  */
  function HeadingOfWords(ws: seq<string>): (r: Result<Option<Heading>, string>)
  {
    if |ws| < 4 then Ok(None) else DatedHeading(ws[0], ws[1], ws[2], ws[3])
  }

  /** The heading of the four words, or the error of `int` on the day. */
  function DatedHeading(dayText: string, monthName: string, year: string, dayName: string): Result<Option<Heading>, string>
  {
    match ToInt(dayText)
    case Err(e) => Err(e)
    case Ok(day) => Ok(Some(Heading(year + "-" + Format02(MonthNumber(monthName)) + "-" + Format02(day), Lower(dayName))))
  }

  /** The heading of a table: none without an `<h3>`. */
  function TableHeading(table: string, find: Finders): Result<Option<Heading>, string>
  {
    match find.h3In(table)
    case None => Ok(None)
    case Some(h3) => HeadingOfWords(HeaderWords(h3))
  }

  /** The heading code of the table loop. */
  method ParseHeading(table: string, find: Finders) returns (r: Result<Option<Heading>, string>)
    ensures r == TableHeading(table, find)
  {
    var h3 := find.h3In(table);
    if h3.None? {
      return Ok(None);
    }
    var dateText := ReplaceChar(h3.value, '/', ' ');
    var parts := Words(Strip(dateText));
    if |parts| < 4 {
      return Ok(None);
    }
    var month := MonthNumber(parts[1]);
    var day := ToInt(parts[0]);
    if day.Err? {
      return Err(day.error);
    }
    var isoDate := parts[2] + "-" + Format02(month) + "-" + Format02(day.value);
    return Ok(Some(Heading(isoDate, Lower(parts[3]))));
  }

  // ---------------------------------------------------------------- rows

  /** The record of one row under heading `h`: it needs both an hour and a film title. */
  function RowRecord(row: string, h: Heading, find: Finders): Option<Record>
  {
    match find.hourIn(row)
    case None => None
    case Some(hour) =>
      match find.titleIn(row)
      case None => None
      case Some(title) => Some(Record(NormalizeTitle(title), h.isoDate, Strip(hour), h.day))
  }

  function RowOutcomes(rows: seq<string>, h: Heading, find: Finders): (os: seq<Option<Record>>)
    ensures |os| == |rows|
  {
    seq(|rows|, i requires 0 <= i < |rows| => RowRecord(rows[i], h, find))
  }

  /** The records of a table's rows, in row order. */
  function RowRecords(rows: seq<string>, h: Heading, find: Finders): seq<Record>
  {
    Somes(RowOutcomes(rows, h, find))
  }

  /** The row loop: every row with an hour and a title, under heading `h`. */
  method ParseRows(rows: seq<string>, h: Heading, find: Finders) returns (records: seq<Record>)
    ensures records == RowRecords(rows, h, find)
  {
    records := [];
    for j := 0 to |rows|
      invariant records == Somes(RowOutcomes(rows, h, find)[..j])
    {
      SomesPrefix(RowOutcomes(rows, h, find), j);
      var hour := find.hourIn(rows[j]);
      if hour.None? {
        continue;
      }
      var time := Strip(hour.value);
      var title := find.titleIn(rows[j]);
      if title.None? {
        continue;
      }
      records := records + [Record(NormalizeTitle(title.value), h.isoDate, time, h.day)];
    }
    assert RowOutcomes(rows, h, find)[..|rows|] == RowOutcomes(rows, h, find);
  }

  // ---------------------------------------------------------------- tables

  /** The records of one table; the heading's error, if any, is the table's. */
  function TableRecords(table: string, find: Finders): Result<seq<Record>, string>
  {
    match TableHeading(table, find)
    case Err(e) => Err(e)
    case Ok(None) => Ok([])
    case Ok(Some(h)) => Ok(RowRecords(find.rowsIn(table), h, find))
  }

  /** The outcome of every table, in page order. */
  function TableOutcomes(tables: seq<string>, find: Finders): (os: seq<Result<seq<Record>, string>>)
    ensures |os| == |tables|
  {
    seq(|tables|, k requires 0 <= k < |tables| => TableRecords(tables[k], find))
  }

  /** What `parse` returns for the page whose repertoire tables are `tables`, or the error it raises. */
  function ParsedTables(tables: seq<string>, find: Finders): Result<seq<Record>, string>
  {
    Collect(TableOutcomes(tables, find))
  }

  /** One table: the heading code, then the row loop. */
  method ParseTable(table: string, find: Finders) returns (r: Result<seq<Record>, string>)
    ensures r == TableRecords(table, find)
  {
    var heading := ParseHeading(table, find);
    if heading.Err? {
      return Err(heading.error);
    }
    if heading.value.None? {
      return Ok([]);
    }
    var records := ParseRows(find.rowsIn(table), heading.value.value, find);
    return Ok(records);
  }

  /** `parse`: the tables in page order, stopping at the first error. */
  method Parse(tables: seq<string>, find: Finders) returns (result: Result<seq<Record>, string>)
    ensures result == ParsedTables(tables, find)
  {
    var results: seq<Record> := [];
    ghost var outs := TableOutcomes(tables, find);
    for i := 0 to |tables|
      invariant Collect(outs[..i]) == Ok(results)
    {
      var table := ParseTable(tables[i], find);
      ParseStep(tables, find, i, results, table);
      if table.Err? {
        return Err(table.error);
      }
      results := results + table.value;
    }
    assert outs[..|tables|] == outs;
    return Ok(results);
  }

  /** One pass of the loop: a failing table is the parse's error, else its records extend the result. */
  lemma ParseStep(tables: seq<string>, find: Finders, i: nat, done: seq<Record>, table: Result<seq<Record>, string>)
    requires i < |tables| && table == TableRecords(tables[i], find)
    requires Collect(TableOutcomes(tables, find)[..i]) == Ok(done)
    ensures table.Err? ==> ParsedTables(tables, find) == Err(table.error)
    ensures table.Ok? ==> Collect(TableOutcomes(tables, find)[..i + 1]) == Ok(done + table.value)
  {
    TableStep(tables, find, i, table);
    if table.Err? {
      CollectFailed(TableOutcomes(tables, find), i + 1);
    }
  }

  /** One more table: a failure so far stays, else the table's error or records are added. */
  lemma TableStep(tables: seq<string>, find: Finders, i: nat, table: Result<seq<Record>, string>)
    requires i < |tables| && table == TableRecords(tables[i], find)
    ensures var outs := TableOutcomes(tables, find);
      Collect(outs[..i + 1]) ==
        match Collect(outs[..i])
        case Err(e) => Err(e)
        case Ok(done) => (match table case Err(e) => Err(e) case Ok(more) => Ok(done + more))
  {
    var outs := TableOutcomes(tables, find);
    assert outs[i] == table;
    CollectPrefix(outs, i);
  }

  // ---------------------------------------------------------------- properties

  /**
    The parse fails exactly when some table's heading has a day that is not
    a number, and then with the message of the first such table.
  */
  lemma ParseFailsOnBadDay(tables: seq<string>, find: Finders)
    ensures ParsedTables(tables, find).Err?
      <==> exists k :: 0 <= k < |tables| && TableHeading(tables[k], find).Err?
    ensures ParsedTables(tables, find).Err? ==>
      exists k :: 0 <= k < |tables|
        && TableHeading(tables[k], find) == Err(ParsedTables(tables, find).error)
        && forall j :: 0 <= j < k ==> TableHeading(tables[j], find).Ok?
  {
    var outs := TableOutcomes(tables, find);
    CollectFails(outs);
    forall k | 0 <= k < |outs|
      ensures outs[k].Err? <==> TableHeading(tables[k], find).Err?
      ensures outs[k].Err? ==> TableHeading(tables[k], find) == Err(outs[k].error)
    {
      assert outs[k] == TableRecords(tables[k], find);
      TableFails(tables[k], find);
    }
  }

  /** A table fails exactly when its heading does, with the heading's error. */
  lemma TableFails(table: string, find: Finders)
    ensures TableRecords(table, find).Err? <==> TableHeading(table, find).Err?
    ensures TableHeading(table, find).Err? ==> TableRecords(table, find) == Err(TableHeading(table, find).error)
  {
  }

  /** When the parse succeeds, every table did, and the records are exactly theirs. */
  lemma ParsedFromTables(tables: seq<string>, find: Finders, r: Record)
    requires ParsedTables(tables, find).Ok?
    ensures forall k :: 0 <= k < |tables| ==> TableRecords(tables[k], find).Ok?
    ensures r in ParsedTables(tables, find).value
      <==> exists k :: 0 <= k < |tables| && r in TableRecords(tables[k], find).value
  {
    var outs := TableOutcomes(tables, find);
    CollectValues(outs, r);
    forall k | 0 <= k < |tables|
      ensures outs[k] == TableRecords(tables[k], find)
    {
      TableOutcomeAt(tables, find, k);
    }
  }

  lemma TableOutcomeAt(tables: seq<string>, find: Finders, k: nat)
    requires k < |tables|
    ensures TableOutcomes(tables, find)[k] == TableRecords(tables[k], find)
  {
  }

  /**
    Every record of a table comes from one of its rows: the row's film title
    normalised and its hour stripped, under the table heading's date and
    weekday.
  */
  lemma TableRecordsFromRows(table: string, find: Finders, r: Record)
    requires TableRecords(table, find).Ok? && r in TableRecords(table, find).value
    ensures TableHeading(table, find).Ok? && TableHeading(table, find).value.Some?
    ensures var h := TableHeading(table, find).value.value;
      && r.date == h.isoDate && r.day == h.day
      && (exists row ::
            && row in find.rowsIn(table) && find.hourIn(row).Some? && find.titleIn(row).Some?
            && r.title == NormalizeTitle(find.titleIn(row).value) && r.time == Strip(find.hourIn(row).value))
  {
    var h := TableHeading(table, find).value.value;
    RowRecordsFromRows(find.rowsIn(table), h, find, r);
  }

  /** Every record of the row loop comes from one of the rows with an hour and a title. */
  lemma RowRecordsFromRows(rows: seq<string>, h: Heading, find: Finders, r: Record)
    requires r in RowRecords(rows, h, find)
    ensures r.date == h.isoDate && r.day == h.day
    ensures exists row ::
      && row in rows && find.hourIn(row).Some? && find.titleIn(row).Some?
      && r.title == NormalizeTitle(find.titleIn(row).value) && r.time == Strip(find.hourIn(row).value)
  {
    var os := RowOutcomes(rows, h, find);
    SomesFrom(os, r);
    var i :| 0 <= i < |os| && os[i] == Some(r);
    RowRecordOf(rows[i], h, find, r);
    assert rows[i] in rows;
  }

  /** A row's record holds its normalised title and stripped hour, under heading `h`. */
  lemma RowRecordOf(row: string, h: Heading, find: Finders, r: Record)
    requires RowRecord(row, h, find) == Some(r)
    ensures find.hourIn(row).Some? && find.titleIn(row).Some?
    ensures r == Record(NormalizeTitle(find.titleIn(row).value), h.isoDate, Strip(find.hourIn(row).value), h.day)
  {
  }

  /** A table without an `<h3>`, or whose heading has fewer than four words, contributes nothing. */
  lemma ShortHeadingSkipped(table: string, find: Finders)
    requires find.h3In(table).None? || |HeaderWords(find.h3In(table).value)| < 4
    ensures TableRecords(table, find) == Ok([])
  {
  }

  /** Words after the fourth do not change the heading. */
  lemma ExtraWordsIgnored(ws: seq<string>)
    requires |ws| >= 4
    ensures HeadingOfWords(ws) == HeadingOfWords(ws[..4])
  {
    assert ws[..4][0] == ws[0] && ws[..4][1] == ws[1] && ws[..4][2] == ws[2] && ws[..4][3] == ws[3];
  }

  /**
    Four words with a day in digits name the year as written, the month of
    the name (January when the table lacks it), the padded day, and the
    weekday in lower case.
  */
  lemma FourWordsHeading(day: string, month: string, year: string, weekday: string)
    requires day != [] && AllDigits(day)
    ensures HeadingOfWords([day, month, year, weekday])
      == Ok(Some(Heading(year + "-" + Format02(MonthNumber(month)) + "-" + Format02(DigitsValue(day)), Lower(weekday))))
  {
    ParseUnsigned(day);
  }

  /** A month name the table lacks is read as January. */
  lemma UnknownMonthJanuary(ws: seq<string>)
    requires |ws| >= 4 && ToInt(ws[0]).Ok? && Lower(ws[1]) !in PolishMonths
    ensures HeadingOfWords(ws).Ok? && HeadingOfWords(ws).value.Some?
    ensures HeadingOfWords(ws).value.value.isoDate == ws[2] + "-01-" + Format02(ToInt(ws[0]).value)
  {
    var day := ToInt(ws[0]).value;
    MonthNumberOfTable(ws[1]);
    assert Format02(1) == "01";
    var iso := ws[2] + "-" + Format02(MonthNumber(ws[1])) + "-" + Format02(day);
    assert HeadingOfWords(ws) == Ok(Some(Heading(iso, Lower(ws[3]))));
    assert iso == ws[2] + "-01-" + Format02(day);
  }

  /** The weekday of a heading is in lower case: lower-casing it again changes nothing. */
  lemma HeadingDayLowerCase(ws: seq<string>)
    requires HeadingOfWords(ws).Ok? && HeadingOfWords(ws).value.Some?
    ensures Lower(HeadingOfWords(ws).value.value.day) == HeadingOfWords(ws).value.value.day
  {
    LowerIdempotent(ws[3]);
  }

  /**
    A heading written `D month YYYY /weekday/`, as the page writes it, has
    exactly those four words once its slashes are spaces.
  */
  lemma SlashedHeaderWords(h3: string, day: string, month: string, year: string, weekday: string)
    requires day != [] && NoSpace(day) && '/' !in day
    requires month != [] && NoSpace(month) && '/' !in month
    requires year != [] && NoSpace(year) && '/' !in year
    requires weekday != [] && NoSpace(weekday) && '/' !in weekday
    requires h3 == day + " " + month + " " + year + " /" + weekday + "/"
    ensures HeaderWords(h3) == [day, month, year, weekday]
  {
    var spaced := SpacedWords(day, month, year, weekday);
    SlashesReplaced(h3, day, month, year, weekday, spaced);
    TrailingSpaceStripped(spaced);
  }

  /** The four words joined by single spaces, a double space before the weekday. */
  function SpacedWords(day: string, month: string, year: string, weekday: string): (s: string)
    requires day != [] && NoSpace(day) && month != [] && NoSpace(month)
    requires year != [] && NoSpace(year) && weekday != [] && NoSpace(weekday)
    ensures Words(s) == [day, month, year, weekday]
    ensures s != [] && s[0] == day[0] && s[|s| - 1] == weekday[|weekday| - 1]
  {
    var w := [' '] + weekday;
    var y := year + [' '] + w;
    var m := month + [' '] + y;
    var s := day + [' '] + m;
    WordsSingle(weekday);
    WordsSpace(' ', weekday);
    WordsCons(year, ' ', w);
    WordsCons(month, ' ', y);
    WordsCons(day, ' ', m);
    s
  }

  /** Replacing the slashes of the heading gives the spaced words and one trailing space. */
  lemma SlashesReplaced(h3: string, day: string, month: string, year: string, weekday: string, spaced: string)
    requires day != [] && NoSpace(day) && '/' !in day
    requires month != [] && NoSpace(month) && '/' !in month
    requires year != [] && NoSpace(year) && '/' !in year
    requires weekday != [] && NoSpace(weekday) && '/' !in weekday
    requires h3 == day + " " + month + " " + year + " /" + weekday + "/"
    requires spaced == SpacedWords(day, month, year, weekday)
    ensures ReplaceChar(h3, '/', ' ') == spaced + " "
  {
    var r := ReplaceChar(h3, '/', ' ');
    assert |r| == |spaced + " "|;
    forall i | 0 <= i < |r|
      ensures r[i] == (spaced + " ")[i]
    {
    }
  }

  /** Stripping drops the one trailing space and nothing else. */
  lemma TrailingSpaceStripped(spaced: string)
    requires spaced != [] && !IsSpace(spaced[0]) && !IsSpace(spaced[|spaced| - 1])
    ensures Strip(spaced + " ") == spaced
  {
    var s := spaced + " ";
    assert StripLeft(s) == s;
    assert s[..|s| - 1] == spaced;
    assert StripRight(s) == StripRight(spaced) == spaced;
  }
}
