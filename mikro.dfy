/**
  The Mikro parser: the page is cut at its `repertoire-separator` headings,
  each heading naming a day ("Dzisiaj" for today, otherwise a weekday and a
  day/month) and followed by the repertoire items of that day. The year is
  not on the page and is inferred from today's date; a day or month that is
  not a number makes the whole parse fail.
*/
module Mikro {
  import opened Wrappers
  import opened Text
  import opened Dates
  import opened Records
  import opened Seqs
  import opened Parsing
  import opened Titles

  /**
    What the page yields to the searches: the repertoire items of a section's
    content, and an item's hour text and title text, absent when the pattern
    does not occur in the item.
  */
  datatype Finders = Finders(
    itemsIn: string -> seq<string>,
    hourIn: string -> Option<string>,
    titleIn: string -> Option<string>)

  /** The ISO date and the weekday name a heading stands for. */
  datatype Heading = Heading(isoDate: string, day: string)

  /** The heading text that stands for today. */
  const TodayText := "Dzisiaj"

  /**
    What `parse` reads off `date.today()`: the year and month the year
    inference compares with, and the ISO text and weekday name a "Dzisiaj"
    heading stands for.
  */
  datatype Today = Today(year: int, month: int, isoDate: string, weekday: string)

  /** The reading of a calendar date. */
  function TodayOf(d: Date): Today
    requires ValidDate(d)
  {
    Today(d.year, d.month, IsoFormat(d), WeekdayName(d))
  }

  // ---------------------------------------------------------------- headings

  /** The year of a day/month heading: next year for a month already past, but only from October on. */
  function InferYear(month: int, now: Today): int
  {
    if month < now.month && now.month >= 10 then now.year + 1 else now.year
  }

  /**
    What a heading stands for: today's date for "Dzisiaj", otherwise a
    `weekday - D/M` heading. `Ok(None)` when the heading has another shape
    (the section is skipped), `Err` with `int()`'s message when the day or the
    month is not a number.
  */
  function HeadingOf(separator: string, now: Today): Result<Option<Heading>, string>
  {
    var text := Strip(separator);
    if text == TodayText then Ok(Some(Heading(now.isoDate, now.weekday)))
    else WeekdayHeading(text, now)
  }

  /** A stripped heading other than "Dzisiaj": two sides of " - ", the weekday and the date. */
  function WeekdayHeading(text: string, now: Today): Result<Option<Heading>, string>
  {
    var parts := Split(text, " - ");
    if |parts| != 2 then Ok(None)
    else DateHeading(Lower(Strip(parts[0])), Strip(parts[1]), now)
  }

  /** The date side of a heading: two sides of "/", the day and the month. */
  function DateHeading(dayName: string, datePart: string, now: Today): Result<Option<Heading>, string>
  {
    var dm := Split(datePart, "/");
    if |dm| != 2 then Ok(None)
    else NumberedHeading(dayName, dm[0], dm[1], now)
  }

  /** The day and the month read with `int()`, the day first; the date is the inferred year, month and day zero-padded. */
  function NumberedHeading(dayName: string, dayText: string, monthText: string, now: Today): Result<Option<Heading>, string>
  {
    match ToInt(dayText)
    case Err(e) => Err(e)
    case Ok(dayNum) =>
      match ToInt(monthText)
      case Err(e) => Err(e)
      case Ok(month) =>
        Ok(Some(Heading(IntToString(InferYear(month, now)) + "-" + Format02(month) + "-" + Format02(dayNum), dayName)))
  }

  /** The imperative heading code of `parse`: `Ok(None)` where it continues, `Err` where `int()` raises. */
  method ParseHeading(separator: string, now: Today) returns (r: Result<Option<Heading>, string>)
    ensures r == HeadingOf(separator, now)
  {
    var dateText := Strip(separator);
    if dateText == TodayText {
      return Ok(Some(Heading(now.isoDate, now.weekday)));
    }
    assert HeadingOf(separator, now) == WeekdayHeading(dateText, now);
    var parts := Split(dateText, " - ");
    if |parts| != 2 {
      return Ok(None);
    }
    var dayName := Lower(Strip(parts[0]));
    var datePart := Strip(parts[1]);
    assert WeekdayHeading(dateText, now) == DateHeading(dayName, datePart, now);
    var dm := Split(datePart, "/");
    if |dm| != 2 {
      return Ok(None);
    }
    assert DateHeading(dayName, datePart, now) == NumberedHeading(dayName, dm[0], dm[1], now);
    var dayNum := ToInt(dm[0]);
    if dayNum.Err? {
      return Err(dayNum.error);
    }
    var month := ToInt(dm[1]);
    if month.Err? {
      return Err(month.error);
    }
    var year := InferYear(month.value, now);
    var isoDate := IntToString(year) + "-" + Format02(month.value) + "-" + Format02(dayNum.value);
    assert NumberedHeading(dayName, dm[0], dm[1], now) == Ok(Some(Heading(isoDate, dayName)));
    return Ok(Some(Heading(isoDate, dayName)));
  }

  // ---------------------------------------------------------------- items

  /** The record of one repertoire item under heading `h`: it needs both an hour and a title. */
  function ItemRecord(item: string, h: Heading, find: Finders): Option<Record>
  {
    match find.hourIn(item)
    case None => None
    case Some(hour) =>
      match find.titleIn(item)
      case None => None
      case Some(title) => Some(Record(NormalizeTitle(title), h.isoDate, Strip(hour), h.day))
  }

  function ItemOutcomes(items: seq<string>, h: Heading, find: Finders): (os: seq<Option<Record>>)
    ensures |os| == |items|
  {
    seq(|items|, i requires 0 <= i < |items| => ItemRecord(items[i], h, find))
  }

  /** The records of a section's items, in item order. */
  function ItemRecords(items: seq<string>, h: Heading, find: Finders): seq<Record>
  {
    Somes(ItemOutcomes(items, h, find))
  }

  /** The inner loop of `parse`: every item with an hour and a title, under heading `h`. */
  method ParseItems(items: seq<string>, h: Heading, find: Finders) returns (records: seq<Record>)
    ensures records == ItemRecords(items, h, find)
  {
    records := [];
    for j := 0 to |items|
      invariant records == Somes(ItemOutcomes(items, h, find)[..j])
    {
      SomesPrefix(ItemOutcomes(items, h, find), j);
      var hour := find.hourIn(items[j]);
      if hour.None? {
        continue;
      }
      var time := Strip(hour.value);
      var title := find.titleIn(items[j]);
      if title.None? {
        continue;
      }
      records := records + [Record(NormalizeTitle(title.value), h.isoDate, time, h.day)];
    }
    assert ItemOutcomes(items, h, find)[..|items|] == ItemOutcomes(items, h, find);
  }

  // ---------------------------------------------------------------- sections

  /** The records of one heading and the content after it; the heading's error, if any, is the section's. */
  function SectionRecords(separator: string, content: string, now: Today, find: Finders): Result<seq<Record>, string>
  {
    match HeadingOf(separator, now)
    case Err(e) => Err(e)
    case Ok(None) => Ok([])
    case Ok(Some(h)) => Ok(ItemRecords(find.itemsIn(content), h, find))
  }

  /**
    The number of heading/content pairs the loop visits: `re.split` with one
    group puts the headings at the odd positions, and a heading without
    content after it is not visited.
  */
  function PairCount(sections: seq<string>): (n: nat)
    ensures 2 * n + 1 <= |sections| || |sections| == 0
    ensures |sections| <= 2 * n + 2
  {
    if |sections| < 3 then 0 else PairCount(sections[2..]) + 1
  }

  /** The heading of pair `k`. */
  function PairHeading(sections: seq<string>, k: nat): string
    requires k < PairCount(sections)
  {
    sections[2 * k + 1]
  }

  /** The content of pair `k`. */
  function PairContent(sections: seq<string>, k: nat): string
    requires k < PairCount(sections)
  {
    sections[2 * k + 2]
  }

  function PairRecords(sections: seq<string>, k: nat, now: Today, find: Finders): Result<seq<Record>, string>
    requires k < PairCount(sections)
  {
    SectionRecords(PairHeading(sections, k), PairContent(sections, k), now, find)
  }

  /** The outcome of every visited pair, in page order. */
  function SectionOutcomes(sections: seq<string>, now: Today, find: Finders): (os: seq<Result<seq<Record>, string>>)
    ensures |os| == PairCount(sections)
  {
    seq(PairCount(sections), k requires 0 <= k < PairCount(sections) => PairRecords(sections, k, now, find))
  }

  /** What `parse` returns for the pieces `re.split` cuts the page into, or the error it raises. */
  function ParsedSections(sections: seq<string>, now: Today, find: Finders): Result<seq<Record>, string>
  {
    Collect(SectionOutcomes(sections, now, find))
  }

  /** One heading and its content: the heading code, then the item loop. */
  method ParseSection(separator: string, content: string, now: Today, find: Finders) returns (r: Result<seq<Record>, string>)
    ensures r == SectionRecords(separator, content, now, find)
  {
    var heading := ParseHeading(separator, now);
    if heading.Err? {
      return Err(heading.error);
    }
    if heading.value.None? {
      return Ok([]);
    }
    var records := ParseItems(find.itemsIn(content), heading.value.value, find);
    return Ok(records);
  }

  /** `parse`: the odd positions of `sections` are headings, each followed by its content. */
  method Parse(sections: seq<string>, today: Date, find: Finders) returns (result: Result<seq<Record>, string>)
    requires ValidDate(today)
    ensures result == ParsedSections(sections, TodayOf(today), find)
  {
    var now := TodayOf(today);
    var results: seq<Record> := [];
    var i := 1;
    ghost var k: nat := 0;
    while i < |sections|
      invariant i == 2 * k + 1 && k <= PairCount(sections)
      invariant Collect(SectionOutcomes(sections, now, find)[..k]) == Ok(results)
      decreases |sections| - i
    {
      if i + 1 >= |sections| {
        break;
      }
      PairAt(sections, k, i);
      var section := ParseSection(sections[i], sections[i + 1], now, find);
      ParseStep(sections, now, find, k, results, section);
      if section.Err? {
        return Err(section.error);
      }
      results := results + section.value;
      i := i + 2;
      k := k + 1;
    }
    ParseDone(sections, now, find, k, results);
    return Ok(results);
  }

  /** The pair the loop reads at position `i == 2 * k + 1` is pair `k`. */
  lemma PairAt(sections: seq<string>, k: nat, i: nat)
    requires i == 2 * k + 1 && i + 1 < |sections|
    ensures k < PairCount(sections)
    ensures PairHeading(sections, k) == sections[i] && PairContent(sections, k) == sections[i + 1]
  {
    PairCountBounds(sections, k);
  }

  /** One more pair in the loop: its error is the parse's, or its records are appended. */
  lemma ParseStep(sections: seq<string>, now: Today, find: Finders, k: nat, done: seq<Record>, section: Result<seq<Record>, string>)
    requires k < PairCount(sections)
    requires section == SectionRecords(PairHeading(sections, k), PairContent(sections, k), now, find)
    requires Collect(SectionOutcomes(sections, now, find)[..k]) == Ok(done)
    ensures section.Err? ==> ParsedSections(sections, now, find) == Err(section.error)
    ensures section.Ok? ==> Collect(SectionOutcomes(sections, now, find)[..k + 1]) == Ok(done + section.value)
  {
    SectionStep(sections, now, find, k, section);
    if section.Err? {
      CollectFailed(SectionOutcomes(sections, now, find), k + 1);
    }
  }

  /** When the loop stops, every pair has been visited. */
  lemma ParseDone(sections: seq<string>, now: Today, find: Finders, k: nat, done: seq<Record>)
    requires 2 * k + 2 >= |sections| && k <= PairCount(sections)
    requires Collect(SectionOutcomes(sections, now, find)[..k]) == Ok(done)
    ensures ParsedSections(sections, now, find) == Ok(done)
  {
    PairCountBounds(sections, k);
    var outs := SectionOutcomes(sections, now, find);
    assert outs[..k] == outs;
  }

  /** The loop visits pair `k` exactly when its content exists, and stops after the last pair. */
  lemma PairCountBounds(sections: seq<string>, k: nat)
    ensures 2 * k + 2 < |sections| ==> k < PairCount(sections)
    ensures 2 * k + 2 >= |sections| ==> PairCount(sections) <= k
  {
  }

  /** One more pair: a failure so far stays, else the section's error or records are added. */
  lemma SectionStep(sections: seq<string>, now: Today, find: Finders, k: nat, section: Result<seq<Record>, string>)
    requires k < PairCount(sections)
    requires section == SectionRecords(PairHeading(sections, k), PairContent(sections, k), now, find)
    ensures var outs := SectionOutcomes(sections, now, find);
      Collect(outs[..k + 1]) ==
        match Collect(outs[..k])
        case Err(e) => Err(e)
        case Ok(done) => (match section case Err(e) => Err(e) case Ok(more) => Ok(done + more))
  {
    var outs := SectionOutcomes(sections, now, find);
    assert outs[k] == section;
    CollectPrefix(outs, k);
  }

  // ---------------------------------------------------------------- properties

  /**
    The parse fails exactly when some visited heading has a day or month that
    is not a number, and then with the message of the first such heading.
  */
  lemma ParseFailsOnBadNumber(sections: seq<string>, now: Today, find: Finders)
    ensures ParsedSections(sections, now, find).Err?
      <==> exists k :: 0 <= k < PairCount(sections) && HeadingOf(PairHeading(sections, k), now).Err?
    ensures ParsedSections(sections, now, find).Err? ==>
      exists k :: 0 <= k < PairCount(sections)
        && HeadingOf(PairHeading(sections, k), now) == Err(ParsedSections(sections, now, find).error)
        && forall j :: 0 <= j < k ==> HeadingOf(PairHeading(sections, j), now).Ok?
  {
    var outs := SectionOutcomes(sections, now, find);
    CollectFails(outs);
    forall k | 0 <= k < |outs|
      ensures outs[k].Err? <==> HeadingOf(PairHeading(sections, k), now).Err?
      ensures outs[k].Err? ==> HeadingOf(PairHeading(sections, k), now) == Err(outs[k].error)
    {
      assert outs[k] == PairRecords(sections, k, now, find);
      SectionFails(PairHeading(sections, k), PairContent(sections, k), now, find);
    }
  }

  /** A section fails exactly when its heading does, with the heading's error. */
  lemma SectionFails(separator: string, content: string, now: Today, find: Finders)
    ensures SectionRecords(separator, content, now, find).Err? <==> HeadingOf(separator, now).Err?
    ensures HeadingOf(separator, now).Err? ==> SectionRecords(separator, content, now, find) == Err(HeadingOf(separator, now).error)
  {
  }

  /** When the parse succeeds, every visited section did, and the records are exactly theirs. */
  lemma ParsedFromSections(sections: seq<string>, now: Today, find: Finders, r: Record)
    requires ParsedSections(sections, now, find).Ok?
    ensures forall k :: 0 <= k < PairCount(sections) ==> PairRecords(sections, k, now, find).Ok?
    ensures r in ParsedSections(sections, now, find).value
      <==> exists k :: 0 <= k < PairCount(sections) && r in PairRecords(sections, k, now, find).value
  {
    var outs := SectionOutcomes(sections, now, find);
    CollectValues(outs, r);
    forall k | 0 <= k < PairCount(sections)
      ensures PairRecords(sections, k, now, find).Ok?
      ensures r in outs[k].value <==> r in PairRecords(sections, k, now, find).value
    {
      PairOutcomeAt(sections, now, find, k);
    }
  }

  lemma PairOutcomeAt(sections: seq<string>, now: Today, find: Finders, k: nat)
    requires k < PairCount(sections)
    ensures SectionOutcomes(sections, now, find)[k] == PairRecords(sections, k, now, find)
  {
  }

  /**
    Every record of a section carries its heading's date and weekday; a
    heading of another shape contributes nothing.
  */
  lemma SectionRecordsDated(separator: string, content: string, now: Today, find: Finders, r: Record)
    requires SectionRecords(separator, content, now, find).Ok?
    requires r in SectionRecords(separator, content, now, find).value
    ensures HeadingOf(separator, now).Ok? && HeadingOf(separator, now).value.Some?
    ensures var h := HeadingOf(separator, now).value.value; r.date == h.isoDate && r.day == h.day
  {
    var h := HeadingOf(separator, now).value.value;
    var items := find.itemsIn(content);
    var os := ItemOutcomes(items, h, find);
    SomesFrom(os, r);
    var i :| 0 <= i < |os| && os[i] == Some(r);
    assert os[i] == ItemRecord(items[i], h, find);
  }

  /**
    A heading other than "Dzisiaj" that is not two sides of " - ", or whose
    date side is not two sides of "/", is skipped: its section adds nothing
    and does not fail, whatever its content.
  */
  lemma WrongShapeSkipped(separator: string, content: string, now: Today, find: Finders)
    requires Strip(separator) != TodayText
    requires var parts := Split(Strip(separator), " - ");
      |parts| != 2 || |Split(Strip(parts[1]), "/")| != 2
    ensures HeadingOf(separator, now) == Ok(None)
    ensures SectionRecords(separator, content, now, find) == Ok([])
  {
  }

  /**
    A heading of the right shape fails exactly when its day or its month is
    not an integer literal, with the message of the day when the day is the
    bad one (it is read first), and of the month otherwise.
  */
  lemma BadNumberFails(separator: string, now: Today)
    requires Strip(separator) != TodayText
    requires var parts := Split(Strip(separator), " - ");
      |parts| == 2 && |Split(Strip(parts[1]), "/")| == 2
    ensures var dm := Split(Strip(Split(Strip(separator), " - ")[1]), "/");
      HeadingOf(separator, now).Err? <==> !IntLiteral(Strip(dm[0])) || !IntLiteral(Strip(dm[1]))
    ensures var dm := Split(Strip(Split(Strip(separator), " - ")[1]), "/");
      !IntLiteral(Strip(dm[0])) ==> HeadingOf(separator, now) == Err(IntError(dm[0]))
    ensures var dm := Split(Strip(Split(Strip(separator), " - ")[1]), "/");
      IntLiteral(Strip(dm[0])) && !IntLiteral(Strip(dm[1])) ==> HeadingOf(separator, now) == Err(IntError(dm[1]))
  {
    var text := Strip(separator);
    var parts := Split(text, " - ");
    var dayName := Lower(Strip(parts[0]));
    var datePart := Strip(parts[1]);
    var dm := Split(datePart, "/");
    assert HeadingOf(separator, now) == WeekdayHeading(text, now);
    assert WeekdayHeading(text, now) == DateHeading(dayName, datePart, now);
    assert DateHeading(dayName, datePart, now) == NumberedHeading(dayName, dm[0], dm[1], now);
    NumberedFails(dayName, dm[0], dm[1], now);
  }

  /** The day and the month fail `int()` in that order. */
  lemma NumberedFails(dayName: string, dayText: string, monthText: string, now: Today)
    ensures NumberedHeading(dayName, dayText, monthText, now).Err?
      <==> !IntLiteral(Strip(dayText)) || !IntLiteral(Strip(monthText))
    ensures !IntLiteral(Strip(dayText)) ==> NumberedHeading(dayName, dayText, monthText, now) == Err(IntError(dayText))
    ensures IntLiteral(Strip(dayText)) && !IntLiteral(Strip(monthText))
      ==> NumberedHeading(dayName, dayText, monthText, now) == Err(IntError(monthText))
  {
  }

  /** A heading left without content at the end of the page is not visited. */
  lemma TrailingHeadingIgnored(sections: seq<string>, heading: string, now: Today, find: Finders)
    requires |sections| % 2 == 1
    ensures ParsedSections(sections + [heading], now, find) == ParsedSections(sections, now, find)
  {
    var longer := sections + [heading];
    assert PairCount(longer) == PairCount(sections);
    forall k | 0 <= k < PairCount(sections)
      ensures PairRecords(longer, k, now, find) == PairRecords(sections, k, now, find)
    {
      assert PairHeading(longer, k) == PairHeading(sections, k);
      assert PairContent(longer, k) == PairContent(sections, k);
    }
    assert SectionOutcomes(longer, now, find) == SectionOutcomes(sections, now, find);
  }

  /** "Dzisiaj", however padded, is today's ISO date with today's weekday, which that date names. */
  lemma TodayHeading(separator: string, today: Date)
    requires ValidDate(today) && Strip(separator) == TodayText
    ensures HeadingOf(separator, TodayOf(today)) == Ok(Some(Heading(IsoFormat(today), WeekdayName(today))))
    ensures DayOfIso(IsoFormat(today)) == WeekdayName(today)
  {
    DayOfIsoFormat(today);
  }

  /** From October on, a month earlier in the year is taken to be next year's, so the heading is never in a past month. */
  lemma LateInYearNotPast(month: int, today: Date)
    requires ValidDate(today) && today.month >= 10 && 1 <= month <= 12
    ensures var year := InferYear(month, TodayOf(today));
      year > today.year || (year == today.year && month >= today.month)
  {
  }

  /** Before October the current year is always taken, even for a month already past. */
  lemma EarlyInYearSameYear(month: int, today: Date)
    requires ValidDate(today) && today.month < 10
    ensures InferYear(month, TodayOf(today)) == today.year
  {
  }

  /**
    A heading `weekday - D/M` with one- or two-digit day and month, as the
    page writes it, stands for the inferred year, the padded month and day,
    and the weekday lower-cased.
  */
  lemma DayMonthHeading(weekday: string, dayText: string, monthText: string, now: Today)
    requires weekday != [] && NoSpace(weekday) && '-' !in weekday
    requires dayText != [] && AllDigits(dayText) && monthText != [] && AllDigits(monthText)
    ensures var day, month := DigitsValue(dayText), DigitsValue(monthText);
      HeadingOf(weekday + " - " + (dayText + "/" + monthText), now)
      == Ok(Some(Heading(IntToString(InferYear(month, now)) + "-" + Format02(month) + "-" + Format02(day), Lower(weekday))))
  {
    var datePart := dayText + "/" + monthText;
    var text := weekday + " - " + datePart;
    DatePartPieces(dayText, monthText, datePart);
    HeadingTextPieces(weekday, datePart, text);
    HeadingLayers(text, weekday, datePart, dayText, monthText, now);
    NumberedDigits(Lower(weekday), dayText, monthText, now);
  }

  /** A stripped `weekday - D/M` heading comes down to reading its day and month. */
  lemma HeadingLayers(text: string, weekday: string, datePart: string, dayText: string, monthText: string, now: Today)
    requires Strip(text) == text && text != TodayText && Split(text, " - ") == [weekday, datePart]
    requires Strip(weekday) == weekday && Strip(datePart) == datePart && Split(datePart, "/") == [dayText, monthText]
    ensures HeadingOf(text, now) == NumberedHeading(Lower(weekday), dayText, monthText, now)
  {
    assert HeadingOf(text, now) == WeekdayHeading(text, now);
    assert WeekdayHeading(text, now) == DateHeading(Lower(weekday), datePart, now);
  }

  /** Day and month written in digits are read as their values. */
  lemma NumberedDigits(dayName: string, dayText: string, monthText: string, now: Today)
    requires dayText != [] && AllDigits(dayText) && monthText != [] && AllDigits(monthText)
    ensures var day, month := DigitsValue(dayText), DigitsValue(monthText);
      NumberedHeading(dayName, dayText, monthText, now)
      == Ok(Some(Heading(IntToString(InferYear(month, now)) + "-" + Format02(month) + "-" + Format02(day), dayName)))
  {
    ParseUnsigned(dayText);
    ParseUnsigned(monthText);
  }

  /** `D/M` in digits holds no hyphen, needs no stripping, and splits on "/" into day and month. */
  lemma DatePartPieces(dayText: string, monthText: string, datePart: string)
    requires dayText != [] && AllDigits(dayText) && monthText != [] && AllDigits(monthText)
    requires datePart == dayText + "/" + monthText
    ensures datePart != [] && '-' !in datePart && IsDigit(datePart[|datePart| - 1])
    ensures Strip(datePart) == datePart
    ensures Split(datePart, "/") == [dayText, monthText]
  {
    DatePartNoHyphen(dayText, monthText, datePart);
    DatePartSplit(dayText, monthText, datePart);
    DatePartEnds(dayText, monthText, datePart);
  }

  lemma DatePartNoHyphen(dayText: string, monthText: string, datePart: string)
    requires dayText != [] && AllDigits(dayText) && monthText != [] && AllDigits(monthText)
    requires datePart == dayText + "/" + monthText
    ensures '-' !in datePart
  {
    DigitsOnly(dayText);
    DigitsOnly(monthText);
  }

  lemma DatePartSplit(dayText: string, monthText: string, datePart: string)
    requires dayText != [] && AllDigits(dayText) && monthText != [] && AllDigits(monthText)
    requires datePart == dayText + "/" + monthText
    ensures Split(datePart, "/") == [dayText, monthText]
  {
    DigitsOnly(dayText);
    DigitsOnly(monthText);
    SplitTwo(dayText, monthText, '/');
  }

  lemma DatePartEnds(dayText: string, monthText: string, datePart: string)
    requires dayText != [] && AllDigits(dayText) && monthText != [] && AllDigits(monthText)
    requires datePart == dayText + "/" + monthText
    ensures IsDigit(datePart[|datePart| - 1]) && Strip(datePart) == datePart
  {
    assert datePart[0] == dayText[0] && datePart[|datePart| - 1] == monthText[|monthText| - 1];
    StripUnchanged(datePart);
  }

  /** Digits are neither hyphens, slashes nor whitespace. */
  lemma DigitsOnly(s: string)
    requires s != [] && AllDigits(s)
    ensures '-' !in s && '/' !in s && !IsSpace(s[0]) && !IsSpace(s[|s| - 1])
  {
  }

  /** `weekday - D/M` needs no stripping, is not "Dzisiaj", and splits on " - " into its two sides. */
  lemma HeadingTextPieces(weekday: string, datePart: string, text: string)
    requires weekday != [] && NoSpace(weekday) && '-' !in weekday
    requires datePart != [] && '-' !in datePart && IsDigit(datePart[|datePart| - 1])
    requires text == weekday + " - " + datePart
    ensures Strip(text) == text && text != TodayText
    ensures Split(text, " - ") == [weekday, datePart]
    ensures Strip(weekday) == weekday
  {
    assert text[0] == weekday[0] && text[|text| - 1] == datePart[|datePart| - 1];
    StripUnchanged(text);
    assert TodayText[|TodayText| - 1] == 'j';
    SplitDash(weekday, datePart);
    StripUnchanged(weekday);
  }

  /** `"a - b".split(" - ")` is `[a, b]` when neither part holds a hyphen. */
  lemma SplitDash(a: string, b: string)
    requires '-' !in a && '-' !in b
    ensures Split(a + " - " + b, " - ") == [a, b]
  {
    var s := a + " - " + b;
    FindFirst(s, " - ");
    assert s[|a|..|a| + 3] == " - ";
    forall j | 0 <= j < |a| ensures !OccursAt(s, " - ", j) {
      DashAt(s, j);
      assert j + 1 < |a| ==> s[j + 1] == a[j + 1];
    }
    assert OccursAt(s, " - ", |a|);
    assert Find(s, " - ") == Some(|a|);
    assert s[..|a|] == a && s[|a| + 3..] == b;
    match Find(b, " - ")
    case None =>
    case Some(k) =>
      DashAt(b, k);
  }

  /** An occurrence of " - " at `k` puts a hyphen at `k + 1`. */
  lemma DashAt(s: string, k: nat)
    ensures OccursAt(s, " - ", k) ==> k + 1 < |s| && s[k + 1] == '-'
  {
    if OccursAt(s, " - ", k) {
      assert s[k + 1] == s[k..k + 3][1];
    }
  }
}
