/**
  The Pod Baranami parser: the page is cut at its `rep_date` headings, each
  naming a weekday, a day number and a month name, and followed by the list
  items of that day. The year is not in the heading: it is read from the
  first order-dialog handler in the section, or taken to be 2026. A day
  number that `int` refuses makes the whole parse fail. The heading pattern
  captures the day number with `\d+`, so on a real page that failure needs
  non-ASCII decimal digits: Python's `int` accepts them, while this model's
  `int` knows ASCII digits only and refuses them.
*/
module Baranami {
  import opened Wrappers
  import opened Text
  import opened Dates
  import opened Records
  import opened Seqs
  import opened Parsing
  import opened Titles

  /** One list item the item pattern matched: its film-link text and its time text. */
  datatype Item = Item(title: string, time: string)

  /**
    What the page yields to the searches: the year argument of the first
    `validateAndShowOrderDialog` call in a section's content (absent when
    there is none), and the list items of that content in page order.
  */
  datatype Finders = Finders(
    yearIn: string -> Option<string>,
    itemsIn: string -> seq<Item>)

  /**
    One (weekday, day number, month name, content) tuple of the split page,
    the first three stripped of surrounding whitespace as the loop reads them.
  */
  datatype Tuple = Tuple(dayName: string, dayNum: string, monthName: string, content: string)

  /** The ISO date and the weekday name a heading stands for. */
  datatype Heading = Heading(isoDate: string, day: string)

  /** The year a section without an order-dialog handler is dated in. */
  const DefaultYear := "2026"

  /** `DAYS_PL`: the weekday labels the page prints, with the names records carry. */
  const DaysPl: map<string, string> := map[
    "Poniedziałek" := "poniedziałek", "Wtorek" := "wtorek", "Środa" := "środa",
    "Czwartek" := "czwartek", "Piątek" := "piątek", "Sobota" := "sobota", "Niedziela" := "niedziela"]

  // ---------------------------------------------------------------- headings

  /** `DAYS_PL.get(raw, raw.lower())`. */
  function DayLabel(raw: string): string
  {
    if raw in DaysPl then DaysPl[raw] else Lower(raw)
  }

  /** The year of a section: the handler's year argument, else the default. */
  function SectionYear(content: string, find: Finders): string
  {
    match find.yearIn(content)
    case Some(year) => year
    case None => DefaultYear
  }

  /**
    What a heading stands for: the section's year, the month of the name
    (January for a name the table lacks) and the day number, both padded to
    two digits; `Err` with `int()`'s message when the day is not a number.
    The weekday is the raw label lower-cased, which is what the `DAYS_PL`
    lookup gives for every label (DayLabelIsLower).
  */
  function HeadingOf(t: Tuple, find: Finders): Result<Heading, string>
  {
    match ToInt(t.dayNum)
    case Err(e) => Err(e)
    case Ok(day) =>
      Ok(Heading(SectionYear(t.content, find) + "-" + Format02(MonthNumber(t.monthName)) + "-" + Format02(day),
                 Lower(t.dayName)))
  }

  /** The heading code of the section loop. */
  method ParseHeading(t: Tuple, find: Finders) returns (r: Result<Heading, string>)
    ensures r == HeadingOf(t, find)
  {
    var dayName := DayLabel(t.dayName);
    var month := MonthNumber(t.monthName);
    var yearMatch := find.yearIn(t.content);
    var year := if yearMatch.Some? then yearMatch.value else DefaultYear;
    var day := ToInt(t.dayNum);
    if day.Err? {
      return Err(day.error);
    }
    var isoDate := year + "-" + Format02(month) + "-" + Format02(day.value);
    DayLabelIsLower(t.dayName);
    return Ok(Heading(isoDate, dayName));
  }

  // ---------------------------------------------------------------- items

  /** The record of one list item under heading `h`: both its title and its time must be non-empty. */
  function ItemRecord(item: Item, h: Heading): Option<Record>
  {
    var title := NormalizeTitle(Strip(item.title));
    var time := Strip(item.time);
    if |title| > 0 && |time| > 0 then Some(Record(title, h.isoDate, time, h.day)) else None
  }

  function ItemOutcomes(items: seq<Item>, h: Heading): (os: seq<Option<Record>>)
    ensures |os| == |items|
  {
    seq(|items|, i requires 0 <= i < |items| => ItemRecord(items[i], h))
  }

  /** The records of a section's items, in item order. */
  function ItemRecords(items: seq<Item>, h: Heading): seq<Record>
  {
    Somes(ItemOutcomes(items, h))
  }

  /** The inner loop of `parse`: every item with a title and a time, under heading `h`. */
  method ParseItems(items: seq<Item>, h: Heading) returns (records: seq<Record>)
    ensures records == ItemRecords(items, h)
  {
    records := [];
    for j := 0 to |items|
      invariant records == Somes(ItemOutcomes(items, h)[..j])
    {
      var title := NormalizeTitle(Strip(items[j].title));
      var time := Strip(items[j].time);
      ItemStep(items, h, j, title, time);
      if |title| > 0 && |time| > 0 {
        records := records + [Record(title, h.isoDate, time, h.day)];
      }
    }
    assert ItemOutcomes(items, h)[..|items|] == ItemOutcomes(items, h);
  }

  /** One more item: its record, if any, follows those of the items before it. */
  lemma ItemStep(items: seq<Item>, h: Heading, j: nat, title: string, time: string)
    requires j < |items|
    requires title == NormalizeTitle(Strip(items[j].title)) && time == Strip(items[j].time)
    ensures Somes(ItemOutcomes(items, h)[..j + 1])
      == Somes(ItemOutcomes(items, h)[..j]) + (if |title| > 0 && |time| > 0 then [Record(title, h.isoDate, time, h.day)] else [])
  {
    SomesPrefix(ItemOutcomes(items, h), j);
  }

  // ---------------------------------------------------------------- sections

  /** The records of one heading and the content after it; the heading's error, if any, is the section's. */
  function SectionRecords(t: Tuple, find: Finders): Result<seq<Record>, string>
  {
    match HeadingOf(t, find)
    case Err(e) => Err(e)
    case Ok(h) => Ok(ItemRecords(find.itemsIn(t.content), h))
  }

  /**
    The number of (weekday, day, month, content) tuples the loop visits:
    `re.split` with three groups puts tuple `k` at positions `4k + 1` to
    `4k + 4`, and an incomplete tuple at the end is not visited.
  */
  function TupleCount(sections: seq<string>): (n: nat)
    ensures 4 * n + 1 <= |sections| || |sections| == 0
    ensures |sections| <= 4 * n + 4
  {
    if |sections| < 5 then 0 else TupleCount(sections[4..]) + 1
  }

  /** The weekday, day and month captures at position `i`, stripped, and the content after them. */
  function TupleFrom(sections: seq<string>, i: nat): Tuple
    requires i + 3 < |sections|
  {
    Tuple(Strip(sections[i]), Strip(sections[i + 1]), Strip(sections[i + 2]), sections[i + 3])
  }

  /** The tuple at positions `4k + 1` to `4k + 4`. */
  function TupleAt(sections: seq<string>, k: nat): Tuple
    requires k < TupleCount(sections)
  {
    TupleFrom(sections, 4 * k + 1)
  }

  /** The records of tuple `k`. */
  function TupleRecords(sections: seq<string>, k: nat, find: Finders): Result<seq<Record>, string>
    requires k < TupleCount(sections)
  {
    SectionRecords(TupleAt(sections, k), find)
  }

  /** The outcome of every visited tuple, in page order. */
  function SectionOutcomes(sections: seq<string>, find: Finders): (os: seq<Result<seq<Record>, string>>)
    ensures |os| == TupleCount(sections)
  {
    seq(TupleCount(sections), k requires 0 <= k < TupleCount(sections) => TupleRecords(sections, k, find))
  }

  /** What `parse` returns for the pieces `re.split` cuts the page into, or the error it raises. */
  function ParsedSections(sections: seq<string>, find: Finders): Result<seq<Record>, string>
  {
    Collect(SectionOutcomes(sections, find))
  }

  /** One tuple: the heading code, then the item loop. */
  method ParseSection(t: Tuple, find: Finders) returns (r: Result<seq<Record>, string>)
    ensures r == SectionRecords(t, find)
  {
    var heading := ParseHeading(t, find);
    if heading.Err? {
      return Err(heading.error);
    }
    var records := ParseItems(find.itemsIn(t.content), heading.value);
    return Ok(records);
  }

  /** The body of `parse`'s loop at position `i = 4k + 1`: the tuple's three captures stripped, then its section. */
  method ParseTuple(sections: seq<string>, i: nat, ghost k: nat, find: Finders) returns (section: Result<seq<Record>, string>)
    requires i == 4 * k + 1 && k < TupleCount(sections) && i + 3 < |sections|
    ensures section == TupleRecords(sections, k, find)
  {
    var t := TupleFrom(sections, i);
    TupleAtFrom(sections, i, k);
    section := ParseSection(t, find);
  }

  lemma TupleAtFrom(sections: seq<string>, i: nat, k: nat)
    requires i == 4 * k + 1 && k < TupleCount(sections) && i + 3 < |sections|
    ensures TupleAt(sections, k) == TupleFrom(sections, i)
  {
  }

  /** `parse`: the loop over `sections` in steps of four, from position 1. */
  method Parse(sections: seq<string>, find: Finders) returns (result: Result<seq<Record>, string>)
    ensures result == ParsedSections(sections, find)
  {
    var results: seq<Record> := [];
    var i := 1;
    ghost var k: nat := 0;
    ghost var outs := SectionOutcomes(sections, find);
    while i < |sections|
      invariant i == 4 * k + 1 && k <= TupleCount(sections)
      invariant Collect(outs[..k]) == Ok(results)
      decreases |sections| - i
    {
      if i + 3 >= |sections| {
        break;
      }
      TupleCountBounds(sections, k);
      var section := ParseTuple(sections, i, k, find);
      ParseStep(sections, find, k, results, section);
      if section.Err? {
        return Err(section.error);
      }
      results := results + section.value;
      i := i + 4;
      k := k + 1;
    }
    TupleCountBounds(sections, k);
    assert outs[..k] == outs;
    return Ok(results);
  }

  /** The loop visits tuple `k` exactly when its content exists, and stops after the last tuple. */
  lemma {:induction false} TupleCountBounds(sections: seq<string>, k: nat)
    ensures 4 * k + 4 < |sections| ==> k < TupleCount(sections)
    ensures 4 * k + 4 >= |sections| ==> TupleCount(sections) <= k
  {
    if k > 0 && |sections| >= 5 {
      TupleCountBounds(sections[4..], k - 1);
    }
  }

  /** One more tuple: a failure so far stays, else the section's error or records are added. */
  lemma SectionStep(sections: seq<string>, find: Finders, k: nat, section: Result<seq<Record>, string>)
    requires k < TupleCount(sections)
    requires section == TupleRecords(sections, k, find)
    ensures var outs := SectionOutcomes(sections, find);
      Collect(outs[..k + 1]) ==
        match Collect(outs[..k])
        case Err(e) => Err(e)
        case Ok(done) => (match section case Err(e) => Err(e) case Ok(more) => Ok(done + more))
  {
    var outs := SectionOutcomes(sections, find);
    assert outs[k] == section;
    CollectPrefix(outs, k);
  }

  /** One pass of the loop: a failing section is the parse's error, else its records extend the result. */
  lemma ParseStep(sections: seq<string>, find: Finders, k: nat, done: seq<Record>, section: Result<seq<Record>, string>)
    requires k < TupleCount(sections)
    requires Collect(SectionOutcomes(sections, find)[..k]) == Ok(done)
    requires section == TupleRecords(sections, k, find)
    ensures section.Err? ==> ParsedSections(sections, find) == Err(section.error)
    ensures section.Ok? ==> Collect(SectionOutcomes(sections, find)[..k + 1]) == Ok(done + section.value)
  {
    SectionStep(sections, find, k, section);
    if section.Err? {
      CollectFailed(SectionOutcomes(sections, find), k + 1);
    }
  }

  // ---------------------------------------------------------------- properties

  /**
    The parse fails exactly when some visited heading has a day number that
    `int` refuses, and then with the message of the first such heading. The
    day numbers come from `\d+`, so this path is not a common one: only a
    capture of non-ASCII digits, which this model's `int` refuses, takes it.
  */
  lemma ParseFailsOnBadDay(sections: seq<string>, find: Finders)
    ensures ParsedSections(sections, find).Err?
      <==> exists k :: 0 <= k < TupleCount(sections) && HeadingOf(TupleAt(sections, k), find).Err?
    ensures ParsedSections(sections, find).Err? ==>
      exists k :: 0 <= k < TupleCount(sections)
        && HeadingOf(TupleAt(sections, k), find) == Err(ParsedSections(sections, find).error)
        && forall j :: 0 <= j < k ==> HeadingOf(TupleAt(sections, j), find).Ok?
  {
    var outs := SectionOutcomes(sections, find);
    CollectFails(outs);
    if ParsedSections(sections, find).Err? {
      var k :| 0 <= k < |outs| && outs[k] == Err(Collect(outs).error) && forall j :: 0 <= j < k ==> outs[j].Ok?;
      TupleFails(sections, k, find);
      forall j | 0 <= j < k
        ensures HeadingOf(TupleAt(sections, j), find).Ok?
      {
        TupleFails(sections, j, find);
      }
    } else {
      forall k | 0 <= k < TupleCount(sections)
        ensures HeadingOf(TupleAt(sections, k), find).Ok?
      {
        TupleFails(sections, k, find);
      }
    }
  }

  /** The `k`-th visited section fails exactly when its heading does, with the heading's error. */
  lemma TupleFails(sections: seq<string>, k: nat, find: Finders)
    requires k < TupleCount(sections)
    ensures SectionOutcomes(sections, find)[k].Err? <==> HeadingOf(TupleAt(sections, k), find).Err?
    ensures SectionOutcomes(sections, find)[k].Err? ==>
      HeadingOf(TupleAt(sections, k), find) == Err(SectionOutcomes(sections, find)[k].error)
  {
    var t := TupleAt(sections, k);
    assert SectionOutcomes(sections, find)[k] == SectionRecords(t, find);
    SectionFails(t, find);
  }

  /** A section fails exactly when its heading does, with the heading's error. */
  lemma SectionFails(t: Tuple, find: Finders)
    ensures SectionRecords(t, find).Err? <==> HeadingOf(t, find).Err?
    ensures HeadingOf(t, find).Err? ==> SectionRecords(t, find) == Err(HeadingOf(t, find).error)
  {
  }

  /** When the parse succeeds, every visited section did, and the records are exactly theirs. */
  lemma ParsedFromSections(sections: seq<string>, find: Finders, r: Record)
    requires ParsedSections(sections, find).Ok?
    ensures forall k :: 0 <= k < TupleCount(sections) ==> TupleRecords(sections, k, find).Ok?
    ensures r in ParsedSections(sections, find).value
      <==> exists k :: 0 <= k < TupleCount(sections) && r in TupleRecords(sections, k, find).value
  {
    forall k | 0 <= k < TupleCount(sections)
      ensures TupleRecords(sections, k, find).Ok?
    {
      ParsedSectionOk(sections, find, k);
    }
    if r in ParsedSections(sections, find).value {
      ParsedRecordSection(sections, find, r);
    } else {
      forall k | 0 <= k < TupleCount(sections)
        ensures r !in TupleRecords(sections, k, find).value
      {
        ParsedSectionOk(sections, find, k);
        if r in TupleRecords(sections, k, find).value {
          SectionRecordKept(sections, find, k, r);
        }
      }
    }
  }

  /** When the parse succeeds, section `k` did. */
  lemma ParsedSectionOk(sections: seq<string>, find: Finders, k: nat)
    requires ParsedSections(sections, find).Ok? && k < TupleCount(sections)
    ensures TupleRecords(sections, k, find).Ok?
  {
    CollectAllOk(SectionOutcomes(sections, find), k);
    SectionOutcomeAt(sections, find, k);
  }

  /** A record of section `k` is in the parse's result. */
  lemma SectionRecordKept(sections: seq<string>, find: Finders, k: nat, r: Record)
    requires ParsedSections(sections, find).Ok? && k < TupleCount(sections)
    requires TupleRecords(sections, k, find).Ok? && r in TupleRecords(sections, k, find).value
    ensures r in ParsedSections(sections, find).value
  {
    var outs := SectionOutcomes(sections, find);
    SectionOutcomeAt(sections, find, k);
    CollectValues(outs, r);
  }

  /** A record of the parse's result comes from some section. */
  lemma ParsedRecordSection(sections: seq<string>, find: Finders, r: Record)
    requires ParsedSections(sections, find).Ok? && r in ParsedSections(sections, find).value
    ensures exists k :: 0 <= k < TupleCount(sections) && TupleRecords(sections, k, find).Ok? && r in TupleRecords(sections, k, find).value
  {
    var outs := SectionOutcomes(sections, find);
    CollectValues(outs, r);
    var k :| 0 <= k < |outs| && r in outs[k].value;
    SectionOutcomeAt(sections, find, k);
  }

  lemma SectionOutcomeAt(sections: seq<string>, find: Finders, k: nat)
    requires k < TupleCount(sections)
    ensures SectionOutcomes(sections, find)[k] == TupleRecords(sections, k, find)
  {
  }

  /**
    Every record of a section carries its heading's date and weekday, and
    comes from one of the section's items whose normalised title and
    stripped time are non-empty.
  */
  lemma SectionRecordsFromItems(t: Tuple, find: Finders, r: Record)
    requires SectionRecords(t, find).Ok? && r in SectionRecords(t, find).value
    ensures HeadingOf(t, find).Ok?
    ensures r.date == HeadingOf(t, find).value.isoDate && r.day == HeadingOf(t, find).value.day
    ensures |r.title| > 0 && |r.time| > 0
    ensures exists item :: item in find.itemsIn(t.content) && r.title == NormalizeTitle(Strip(item.title)) && r.time == Strip(item.time)
  {
    var h := HeadingOf(t, find).value;
    var items := find.itemsIn(t.content);
    ItemRecordsFrom(items, h, r);
  }

  /** A record kept from a list of items comes from one of them, under the heading. */
  lemma ItemRecordsFrom(items: seq<Item>, h: Heading, r: Record)
    requires r in ItemRecords(items, h)
    ensures r.date == h.isoDate && r.day == h.day && |r.title| > 0 && |r.time| > 0
    ensures exists item :: item in items && r.title == NormalizeTitle(Strip(item.title)) && r.time == Strip(item.time)
  {
    var os := ItemOutcomes(items, h);
    SomesFrom(os, r);
    var i :| 0 <= i < |os| && os[i] == Some(r);
    assert os[i] == ItemRecord(items[i], h);
    assert items[i] in items;
  }

  /** An item whose title and time survive normalisation is kept, under the section's heading. */
  lemma ItemKept(items: seq<Item>, h: Heading, i: nat)
    requires i < |items|
    requires |NormalizeTitle(Strip(items[i].title))| > 0 && |Strip(items[i].time)| > 0
    ensures Record(NormalizeTitle(Strip(items[i].title)), h.isoDate, Strip(items[i].time), h.day) in ItemRecords(items, h)
  {
    var os := ItemOutcomes(items, h);
    assert os[i] == ItemRecord(items[i], h);
    SomesMember(os, os[i].value);
  }

  /** Pieces after the last complete tuple are never visited. */
  lemma TrailingPiecesIgnored(sections: seq<string>, extra: seq<string>, find: Finders)
    requires |sections| % 4 == 1 && |extra| <= 3
    ensures ParsedSections(sections + extra, find) == ParsedSections(sections, find)
  {
    var longer := sections + extra;
    var n := TupleCount(sections);
    TupleCountExact(sections);
    TupleCountBounds(longer, n);
    if n > 0 { TupleCountBounds(longer, n - 1); }
    assert TupleCount(longer) == n;
    forall k | 0 <= k < n
      ensures TupleRecords(longer, k, find) == TupleRecords(sections, k, find)
    {
      assert longer[4 * k + 1] == sections[4 * k + 1] && longer[4 * k + 2] == sections[4 * k + 2];
      assert longer[4 * k + 3] == sections[4 * k + 3] && longer[4 * k + 4] == sections[4 * k + 4];
      assert TupleAt(longer, k) == TupleAt(sections, k);
    }
    assert SectionOutcomes(longer, find) == SectionOutcomes(sections, find);
  }

  /** A split whose length is one more than a multiple of four holds exactly that many tuples. */
  lemma {:induction false} TupleCountExact(sections: seq<string>)
    requires |sections| % 4 == 1
    ensures 4 * TupleCount(sections) + 1 == |sections|
  {
    if |sections| >= 5 {
      TupleCountExact(sections[4..]);
    }
  }

  /** Every value of `DAYS_PL` is its key lower-cased, so the day label is always the raw label lower-cased. */
  lemma DayLabelIsLower(raw: string)
    ensures DayLabel(raw) == Lower(raw)
  {
    if raw in DaysPl {
      DaysPlLower();
    }
  }

  /** The table entries, letter by letter. */
  lemma DaysPlLower()
    ensures forall key :: key in DaysPl ==> DaysPl[key] == Lower(key)
  {
    LowerWord("Poniedziałek", "poniedziałek");
    LowerWord("Wtorek", "wtorek");
    LowerWord("Środa", "środa");
    LowerWord("Czwartek", "czwartek");
    LowerWord("Piątek", "piątek");
    LowerWord("Sobota", "sobota");
    LowerWord("Niedziela", "niedziela");
  }

  /** `Lower(word) == lower` checked position by position. */
  lemma LowerWord(word: string, lower: string)
    requires |word| == |lower| && forall i :: 0 <= i < |word| ==> LowerChar(word[i]) == lower[i]
    ensures Lower(word) == lower
  {
  }

  /** The weekday of every record is in lower case: lower-casing it again changes nothing. */
  lemma HeadingDayLowerCase(t: Tuple, find: Finders)
    requires HeadingOf(t, find).Ok?
    ensures HeadingOf(t, find).value.day == Lower(t.dayName)
    ensures Lower(HeadingOf(t, find).value.day) == HeadingOf(t, find).value.day
  {
    DayLabelIsLower(t.dayName);
    LowerIdempotent(t.dayName);
  }

  /**
    A heading whose day number is written in digits is dated in the
    section's year (the handler's, else 2026), the month of the name
    (January when the table lacks it) and the padded day.
  */
  lemma DigitsHeading(t: Tuple, find: Finders)
    requires |t.dayNum| > 0 && AllDigits(t.dayNum)
    ensures HeadingOf(t, find).Ok?
    ensures HeadingOf(t, find).value.isoDate
      == SectionYear(t.content, find) + "-" + Format02(MonthNumber(t.monthName)) + "-" + Format02(DigitsValue(t.dayNum))
  {
    ParseUnsigned(t.dayNum);
  }

  /** A section without an order-dialog handler is dated in 2026. */
  lemma DefaultYearUsed(t: Tuple, find: Finders)
    requires HeadingOf(t, find).Ok? && find.yearIn(t.content).None?
    ensures HeadingOf(t, find).value.isoDate
      == "2026" + "-" + Format02(MonthNumber(t.monthName)) + "-" + Format02(ToInt(t.dayNum).value)
  {
  }

  /** A month name the table lacks is read as January. */
  lemma UnknownMonthJanuary(t: Tuple, find: Finders)
    requires HeadingOf(t, find).Ok? && Lower(t.monthName) !in PolishMonths
    ensures HeadingOf(t, find).value.isoDate
      == SectionYear(t.content, find) + "-" + "01" + "-" + Format02(ToInt(t.dayNum).value)
  {
    assert Format02(1) == "01";
  }
}
