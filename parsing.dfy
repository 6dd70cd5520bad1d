/**
  What the cinema parsers share: the page blocks between consecutive pattern
  matches, the weekday fallback for a date that may not be a calendar date,
  and the error `int()` raises on text that is not a number.
*/
module Parsing {
  import opened Wrappers
  import opened Text
  import opened Dates

  // ---------------------------------------------------------------- blocks between matches

  /** One match of `re.finditer` on the page: where it starts and ends, and its first group. */
  datatype Match = Match(start: nat, end: nat, group: string)

  /** Matches lie inside the page, in page order, without overlapping, as `finditer` yields them. */
  predicate WellFormed(page: string, ms: seq<Match>)
  {
    && (forall i :: 0 <= i < |ms| ==> ms[i].start <= ms[i].end <= |page|)
    && (forall i :: 0 <= i < |ms| - 1 ==> ms[i].end <= ms[i + 1].start)
  }

  /** `matches[i + 1].start() if i + 1 < len(matches) else len(html)` */
  function BlockEnd(page: string, ms: seq<Match>, i: nat): nat
    requires i < |ms|
  {
    if i + 1 < |ms| then ms[i + 1].start else |page|
  }

  /** `html[match.end():end]`: the text after match `i` up to the next match or the end of the page. */
  function BlockAfter(page: string, ms: seq<Match>, i: nat): (block: string)
    requires WellFormed(page, ms) && i < |ms|
    ensures |block| == BlockEnd(page, ms, i) - ms[i].end
  {
    page[ms[i].end..BlockEnd(page, ms, i)]
  }

  /** The text of match `i` itself. */
  function MatchText(page: string, ms: seq<Match>, i: nat): string
    requires WellFormed(page, ms) && i < |ms|
  {
    page[ms[i].start..ms[i].end]
  }

  /** The first `k` matches, each followed by its block. */
  function Tiles(page: string, ms: seq<Match>, k: nat): string
    requires WellFormed(page, ms) && k <= |ms|
  {
    if k == 0 then [] else Tiles(page, ms, k - 1) + MatchText(page, ms, k - 1) + BlockAfter(page, ms, k - 1)
  }

  /**
    The matches and their blocks cover the page from the first match on, each
    piece exactly once and in page order: no text is in two blocks and none
    after the first match is lost.
  */
  lemma {:induction false} TilesCover(page: string, ms: seq<Match>, k: nat)
    requires WellFormed(page, ms) && 0 < k <= |ms|
    ensures ms[0].start <= BlockEnd(page, ms, k - 1)
    ensures Tiles(page, ms, k) == page[ms[0].start..BlockEnd(page, ms, k - 1)]
  {
    if k > 1 {
      TilesCover(page, ms, k - 1);
      var a, b, c, d := ms[0].start, ms[k - 1].start, ms[k - 1].end, BlockEnd(page, ms, k - 1);
      assert BlockEnd(page, ms, k - 2) == b;
      assert a <= b by {
        BlocksAscend(page, ms, 0, k - 1);
      }
      assert page[a..b] + page[b..c] + page[c..d] == page[a..d];
    }
  }

  /** A block ends where the next match begins, so later matches start after earlier blocks end. */
  lemma {:induction false} BlocksAscend(page: string, ms: seq<Match>, i: nat, j: nat)
    requires WellFormed(page, ms) && i < j < |ms|
    ensures BlockEnd(page, ms, i) <= ms[j].start
    decreases j - i
  {
    if i + 1 < j {
      BlocksAscend(page, ms, i + 1, j);
    }
  }

  lemma AllTiles(page: string, ms: seq<Match>)
    requires WellFormed(page, ms) && ms != []
    ensures Tiles(page, ms, |ms|) == page[ms[0].start..]
  {
    TilesCover(page, ms, |ms|);
  }

  // ---------------------------------------------------------------- weekday fallback

  /**
    `weekday_name(date.fromisoformat(iso))`, or "" where `fromisoformat`
    raises ValueError.
  */
  function DayOfIso(iso: string): (day: string)
    ensures day == "" || day in Weekdays
    ensures day == "" <==> ParseIso(iso).None?
  {
    match ParseIso(iso)
    case Some(d) => WeekdayName(d)
    case None => ""
  }

  /** The canonical text of a calendar date names its weekday. */
  lemma DayOfIsoFormat(d: Date)
    requires ValidDate(d)
    ensures DayOfIso(IsoFormat(d)) == WeekdayName(d)
  {
    IsoRoundTrip(d);
  }

  /**
    A weekday name only ever comes from canonical text: the text is the ISO
    form of a calendar date, and the name is that date's.
  */
  lemma DayOfIsoNamed(iso: string)
    requires DayOfIso(iso) != ""
    ensures exists d :: ValidDate(d) && iso == IsoFormat(d) && DayOfIso(iso) == WeekdayName(d)
  {
    var d := ParseIso(iso).value;
    IsoCanonical(iso);
    assert ValidDate(d) && iso == IsoFormat(d) && DayOfIso(iso) == WeekdayName(d);
  }

  // ---------------------------------------------------------------- int()

  /** The message of the ValueError `int(text)` raises. */
  function IntError(text: string): string
  {
    "invalid literal for int() with base 10: '" + text + "'"
  }

  /** `int(text)`, with the raised ValueError as an error value. */
  function ToInt(text: string): (r: Result<int, string>)
    ensures r.Ok? <==> IntLiteral(Strip(text))
    ensures r.Ok? && AllDigits(Strip(text)) ==> r.value == DigitsValue(Strip(text))
    ensures r.Ok? && r.value < 0 ==> Strip(text)[0] == '-'
    ensures r.Err? ==> r.error == IntError(text)
  {
    ParseIntDefined(text);
    match ParseInt(text)
    case Some(n) => Ok(n)
    case None => Err(IntError(text))
  }
}
