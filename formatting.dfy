/**
  The schedule text: the markdown note that lists each film once,
  alphabetically, with its showings grouped by time and cinema and its days
  collapsed into weekday ranges.
*/
module Formatting {
  import opened Wrappers
  import opened Text
  import opened Dates
  import opened Records
  import opened Seqs
  import opened Core
  import opened Titles

  // ---------------------------------------------------------------- orders

  /** `sorted(..., key=str.lower)`: titles compare by their lower-case forms. */
  predicate TitleKeyLe(a: string, b: string)
  {
    LexLe(Lower(a), Lower(b))
  }

  /** A showing is the pair (time, cinema) its days are grouped under. */
  type Showing = (string, string)

  /** Python's `<=` on a (time, cinema) tuple: by time, then by cinema. */
  predicate ShowingLe(a: Showing, b: Showing)
  {
    LexLess(a.0, b.0) || (a.0 == b.0 && LexLe(a.1, b.1))
  }

  /** Python's `<` on a (time, cinema) tuple. */
  predicate ShowingLess(a: Showing, b: Showing)
  {
    LexLess(a.0, b.0) || (a.0 == b.0 && LexLess(a.1, b.1))
  }

  lemma TitleKeyOrder()
    ensures TotalPreorder(TitleKeyLe)
  {
    forall a: string, b: string ensures TitleKeyLe(a, b) || TitleKeyLe(b, a) {
      LexLessTotal(Lower(a), Lower(b));
    }
    forall a: string, b: string, c: string | TitleKeyLe(a, b) && TitleKeyLe(b, c)
      ensures TitleKeyLe(a, c)
    {
      if Lower(a) != Lower(b) && Lower(b) != Lower(c) {
        LexLessTransitive(Lower(a), Lower(b), Lower(c));
      }
    }
  }

  lemma ShowingOrder()
    ensures TotalPreorder(ShowingLe)
  {
    forall a: Showing, b: Showing ensures ShowingLe(a, b) || ShowingLe(b, a) {
      LexLessTotal(a.0, b.0);
      LexLessTotal(a.1, b.1);
    }
    forall a: Showing, b: Showing, c: Showing | ShowingLe(a, b) && ShowingLe(b, c)
      ensures ShowingLe(a, c)
    {
      if LexLess(a.0, b.0) && LexLess(b.0, c.0) {
        LexLessTransitive(a.0, b.0, c.0);
      } else if a.1 != b.1 && b.1 != c.1 && a.0 == b.0 && b.0 == c.0 {
        LexLessTransitive(a.1, b.1, c.1);
      }
    }
  }

  /** Between two different showings the tuple order is strict. */
  lemma ShowingLeDistinct(a: Showing, b: Showing)
    requires ShowingLe(a, b) && a != b
    ensures ShowingLess(a, b)
  {
  }

  // ---------------------------------------------------------------- grouping

  function TitlesOf(ss: seq<Screening>): seq<string>
  {
    seq(|ss|, i requires 0 <= i < |ss| => ss[i].title)
  }

  function ShowingOf(s: Screening): Showing
  {
    (s.time, s.cinema)
  }

  function ShowingsOf(ss: seq<Screening>): seq<Showing>
  {
    seq(|ss|, i requires 0 <= i < |ss| => ShowingOf(ss[i]))
  }

  /** The screenings of one film, in their original order: `movies[title]`. */
  function WithTitle(ss: seq<Screening>, t: string): (r: seq<Screening>)
    decreases |ss|
  {
    if ss == [] then []
    else WithTitle(ss[..|ss| - 1], t) + if ss[|ss| - 1].title == t then [ss[|ss| - 1]] else []
  }

  /** A film's screenings are exactly the screenings with its title. */
  lemma {:induction false} WithTitleMembers(ss: seq<Screening>, t: string, s: Screening)
    ensures s in WithTitle(ss, t) <==> s in ss && s.title == t
    decreases |ss|
  {
    if ss != [] {
      var p := ss[..|ss| - 1];
      assert ss == p + [ss[|ss| - 1]];
      WithTitleMembers(p, t, s);
    }
  }

  lemma WithTitleSnoc(ss: seq<Screening>, s: Screening, t: string)
    ensures WithTitle(ss + [s], t) == WithTitle(ss, t) + if s.title == t then [s] else []
  {
    assert (ss + [s])[..|ss|] == ss;
  }

  /**
    The day of a screening as a date ordinal. The schedule only groups
    screenings whose date already parsed, so the fallback is never used there.
  */
  function DayOrdinal(s: Screening): int
  {
    match ParseIso(s.date)
    case Some(d) => Ordinal(d)
    case None => 0
  }

  /** The days of one showing, in order: `time_cinema_groups[key]`. */
  function DatesOfShowing(ss: seq<Screening>, key: Showing): (ds: seq<int>)
    ensures |ds| <= |ss|
    decreases |ss|
  {
    if ss == [] then []
    else
      var p := ss[..|ss| - 1];
      var s := ss[|ss| - 1];
      DatesOfShowing(p, key) + if ShowingOf(s) == key then [DayOrdinal(s)] else []
  }

  lemma DatesOfShowingSnoc(ss: seq<Screening>, s: Screening, key: Showing)
    ensures DatesOfShowing(ss + [s], key)
      == DatesOfShowing(ss, key) + if ShowingOf(s) == key then [DayOrdinal(s)] else []
  {
    assert (ss + [s])[..|ss|] == ss;
  }

  /** A day is listed under a showing exactly when a screening of that showing falls on it. */
  lemma {:induction false} DatesOfShowingMembers(ss: seq<Screening>, key: Showing, d: int)
    ensures d in DatesOfShowing(ss, key) <==> exists s :: s in ss && ShowingOf(s) == key && DayOrdinal(s) == d
    decreases |ss|
  {
    if ss != [] {
      var p := ss[..|ss| - 1];
      var s := ss[|ss| - 1];
      assert ss == p + [s];
      DatesOfShowingMembers(p, key, d);
    }
  }

  // ---------------------------------------------------------------- the text

  const Separator := "---"

  function Header(from: Date, to: Date): string
    requires ValidDate(from) && ValidDate(to)
  {
    "# Cinema Schedule: " + IsoFormat(from) + " → " + IsoFormat(to)
  }

  /** The schedule's own filter: the date range and the earliest time, nothing else. */
  function ScheduleFiltered(all: seq<Screening>, from: Date, to: Date, minTime: Option<string>): seq<Screening>
  {
    Filtered(all, from, to, minTime, None, None)
  }

  /** The films of the schedule, each once, sorted by lower-cased title. */
  function ScheduleTitles(f: seq<Screening>): seq<string>
  {
    SortBy(Dedup(TitlesOf(f)), TitleKeyLe)
  }

  /** The showings of one film's screenings, each once, in tuple order. */
  function ShowingKeys(ss: seq<Screening>): seq<Showing>
  {
    SortBy(Dedup(ShowingsOf(ss)), ShowingLe)
  }

  /** "<days> <time>, <cinema>" for one showing. */
  function GroupLine(ss: seq<Screening>, key: Showing): string
  {
    CollapsedDays(DatesOfShowing(ss, key)) + " " + key.0 + ", " + key.1
  }

  function GroupLines(ss: seq<Screening>, keys: seq<Showing>): seq<string>
  {
    seq(|keys|, i requires 0 <= i < |keys| => GroupLine(ss, keys[i]))
  }

  /** One more showing adds its line at the end. */
  lemma GroupLinesPrefix(ss: seq<Screening>, keys: seq<Showing>, g: nat)
    requires g < |keys|
    ensures GroupLines(ss, keys[..g + 1]) == GroupLines(ss, keys[..g]) + [GroupLine(ss, keys[g])]
  {
  }

  /** The showing lines of film `t`. */
  function Parts(f: seq<Screening>, t: string): seq<string>
  {
    var ss := WithTitle(f, t);
    GroupLines(ss, ShowingKeys(ss))
  }

  /** One film's lines: a single showing joins the title with an em dash, otherwise one showing per line. */
  function Block(t: string, parts: seq<string>): seq<string>
  {
    if |parts| == 1 then [t + " — " + parts[0]] else [t] + parts
  }

  function TitleBlock(f: seq<Screening>, t: string): seq<string>
  {
    Block(t, Parts(f, t))
  }

  /** The blocks of the films `titles`, in that order. */
  function TitleBlocks(f: seq<Screening>, titles: seq<string>): (bs: seq<seq<string>>)
    ensures |bs| == |titles|
    decreases |titles|
  {
    if titles == [] then []
    else TitleBlocks(f, titles[..|titles| - 1]) + [TitleBlock(f, titles[|titles| - 1])]
  }

  /** The blocks in order, each followed by a separator line. */
  function Terminated(blocks: seq<seq<string>>): seq<string>
    decreases |blocks|
  {
    if blocks == [] then []
    else Terminated(blocks[..|blocks| - 1]) + blocks[|blocks| - 1] + [Separator]
  }

  lemma TerminatedSnoc(blocks: seq<seq<string>>, b: seq<string>)
    ensures Terminated(blocks + [b]) == Terminated(blocks) + b + [Separator]
  {
    assert (blocks + [b])[..|blocks|] == blocks;
  }

  /** The lines of a non-empty schedule: header, blocks, and no separator at the very end. */
  function ScheduleLines(f: seq<Screening>, from: Date, to: Date): (lines: seq<string>)
    requires ValidDate(from) && ValidDate(to)
    ensures lines != [] && lines[0] == Header(from, to) + "\n"
  {
    var lines := [Header(from, to) + "\n"] + Terminated(TitleBlocks(f, ScheduleTitles(f)));
    if lines[|lines| - 1] == Separator then lines[..|lines| - 1] else lines
  }

  /** The text `format_schedule` returns. */
  function ScheduleText(all: seq<Screening>, from: Date, to: Date, minTime: Option<string>): string
    requires ValidDate(from) && ValidDate(to)
  {
    var f := ScheduleFiltered(all, from, to, minTime);
    if f == [] then Header(from, to) + "\n\nNo screenings found."
    else Join(ScheduleLines(f, from, to), "\n")
  }

  // ---------------------------------------------------------------- properties of the text

  /**
    Every film of the schedule appears once, the films are in order of their
    lower-cased titles, and they are exactly the films of the kept screenings.
  */
  lemma ScheduleTitlesSpec(f: seq<Screening>)
    ensures Distinct(ScheduleTitles(f))
    ensures forall i, j :: 0 <= i < j < |ScheduleTitles(f)| ==>
      LexLe(Lower(ScheduleTitles(f)[i]), Lower(ScheduleTitles(f)[j]))
    ensures forall t :: t in ScheduleTitles(f) <==> exists s :: s in f && s.title == t
  {
    var firstSeen := Dedup(TitlesOf(f));
    DedupSpec(TitlesOf(f));
    var ts := ScheduleTitles(f);
    TitleKeyOrder();
    SortBySorted(firstSeen, TitleKeyLe);
    DistinctPermutation(firstSeen, ts);
    forall t ensures t in ts <==> exists s :: s in f && s.title == t {
      assert t in ts <==> t in multiset(ts);
      assert t in firstSeen <==> t in multiset(firstSeen);
      if t in TitlesOf(f) {
        var i :| 0 <= i < |f| && TitlesOf(f)[i] == t;
        assert f[i] in f;
      }
      if exists s :: s in f && s.title == t {
        var s :| s in f && s.title == t;
        var i :| 0 <= i < |f| && f[i] == s;
        assert TitlesOf(f)[i] == t;
      }
    }
  }

  /**
    The showing lines of a film list each (time, cinema) pair once, strictly
    ascending by time and then cinema, and exactly the pairs of its screenings.
  */
  lemma ShowingKeysSpec(ss: seq<Screening>)
    ensures Distinct(ShowingKeys(ss))
    ensures forall i, j :: 0 <= i < j < |ShowingKeys(ss)| ==> ShowingLess(ShowingKeys(ss)[i], ShowingKeys(ss)[j])
    ensures forall k :: k in ShowingKeys(ss) <==> exists s :: s in ss && ShowingOf(s) == k
  {
    var firstSeen := Dedup(ShowingsOf(ss));
    DedupSpec(ShowingsOf(ss));
    var ks := ShowingKeys(ss);
    ShowingOrder();
    SortBySorted(firstSeen, ShowingLe);
    DistinctPermutation(firstSeen, ks);
    forall i, j | 0 <= i < j < |ks| ensures ShowingLess(ks[i], ks[j]) {
      ShowingLeDistinct(ks[i], ks[j]);
    }
    forall k ensures k in ks <==> exists s :: s in ss && ShowingOf(s) == k {
      assert k in ks <==> k in multiset(ks);
      assert k in firstSeen <==> k in multiset(firstSeen);
      if k in ShowingsOf(ss) {
        var i :| 0 <= i < |ss| && ShowingsOf(ss)[i] == k;
        assert ss[i] in ss;
      }
      if exists s :: s in ss && ShowingOf(s) == k {
        var s :| s in ss && ShowingOf(s) == k;
        var i :| 0 <= i < |ss| && ss[i] == s;
        assert ShowingsOf(ss)[i] == k;
      }
    }
  }

  /** The blocks with one separator line between consecutive blocks and none after the last. */
  function Interleaved(blocks: seq<seq<string>>): seq<string>
    requires blocks != []
    decreases |blocks|
  {
    if |blocks| == 1 then blocks[0]
    else blocks[0] + [Separator] + Interleaved(blocks[1..])
  }

  lemma {:induction false} InterleavedSnoc(blocks: seq<seq<string>>, b: seq<string>)
    requires blocks != []
    ensures Interleaved(blocks + [b]) == Interleaved(blocks) + [Separator] + b
    decreases |blocks|
  {
    if |blocks| == 1 {
      assert (blocks + [b])[1..] == [b];
    } else {
      assert (blocks + [b])[1..] == blocks[1..] + [b];
      InterleavedSnoc(blocks[1..], b);
    }
  }

  /** Writing a separator after every block is the interleaving plus one trailing separator. */
  lemma {:induction false} TerminatedInterleaved(blocks: seq<seq<string>>)
    requires blocks != []
    ensures Terminated(blocks) == Interleaved(blocks) + [Separator]
    decreases |blocks|
  {
    var p := blocks[..|blocks| - 1];
    var b := blocks[|blocks| - 1];
    assert blocks == p + [b];
    if p != [] {
      TerminatedInterleaved(p);
      InterleavedSnoc(p, b);
    }
  }

  /** The interleaving ends with the last line of the last block. */
  lemma {:induction false} InterleavedLast(blocks: seq<seq<string>>)
    requires blocks != [] && blocks[|blocks| - 1] != []
    ensures var b := blocks[|blocks| - 1];
      Interleaved(blocks)[|Interleaved(blocks)| - 1] == b[|b| - 1]
    decreases |blocks|
  {
    if |blocks| > 1 {
      InterleavedLast(blocks[1..]);
    }
  }

  /** The last line of a film's block is a showing, never a separator. */
  lemma BlockEndsWithShowing(f: seq<Screening>, t: string)
    requires exists s :: s in f && s.title == t
    ensures TitleBlock(f, t) != []
    ensures TitleBlock(f, t)[|TitleBlock(f, t)| - 1] != Separator
  {
    var s :| s in f && s.title == t;
    var ss := WithTitle(f, t);
    WithTitleMembers(f, t, s);
    var keys := ShowingKeys(ss);
    ShowingKeysNonEmpty(ss, s);
    var parts := GroupLines(ss, keys);
    assert parts[|parts| - 1] == GroupLine(ss, keys[|keys| - 1]);
    GroupLineSpaced(ss, keys[|keys| - 1]);
    BlockLastSpaced(t, parts);
    assert TitleBlock(f, t) == Block(t, parts);
  }

  lemma ShowingKeysNonEmpty(ss: seq<Screening>, s: Screening)
    requires s in ss
    ensures ShowingKeys(ss) != []
  {
    var i :| 0 <= i < |ss| && ss[i] == s;
    assert ShowingsOf(ss)[i] == ShowingOf(s);
    DedupSpec(ShowingsOf(ss));
    assert ShowingOf(s) in Dedup(ShowingsOf(ss));
    assert ShowingOf(s) in multiset(Dedup(ShowingsOf(ss)));
  }

  /** Every showing line has a space in it. */
  lemma GroupLineSpaced(ss: seq<Screening>, key: Showing)
    ensures ' ' in GroupLine(ss, key)
  {
    var days := CollapsedDays(DatesOfShowing(ss, key));
    assert GroupLine(ss, key)[|days|] == ' ';
  }

  /** A block whose last showing line has a space ends with a line that has one, which the separator does not. */
  lemma BlockLastSpaced(t: string, parts: seq<string>)
    requires parts != [] && ' ' in parts[|parts| - 1]
    ensures Block(t, parts) != []
    ensures Block(t, parts)[|Block(t, parts)| - 1] != Separator
  {
    if |parts| == 1 {
      var line := t + " — " + parts[0];
      assert line[|t|] == ' ';
    } else {
      assert Block(t, parts)[|Block(t, parts)| - 1] == parts[|parts| - 1];
    }
    assert ' ' !in Separator;
  }


  /**
    A schedule with screenings is the header line followed by the film blocks,
    separated by "---" lines, with nothing after the last block.
  */
  lemma ScheduleLayout(all: seq<Screening>, from: Date, to: Date, minTime: Option<string>)
    requires ValidDate(from) && ValidDate(to)
    requires ScheduleFiltered(all, from, to, minTime) != []
    ensures var f := ScheduleFiltered(all, from, to, minTime);
      var titles := ScheduleTitles(f);
      && titles != []
      && ScheduleLines(f, from, to) == [Header(from, to) + "\n"] + Interleaved(TitleBlocks(f, titles))
      && ScheduleLines(f, from, to)[|ScheduleLines(f, from, to)| - 1] != Separator
      && ScheduleText(all, from, to, minTime) == Join(ScheduleLines(f, from, to), "\n")
  {
    ScheduleLinesLayout(ScheduleFiltered(all, from, to, minTime), from, to);
  }

  /** The lines of a non-empty schedule: the header, then the blocks with separators between them and none after. */
  lemma ScheduleLinesLayout(f: seq<Screening>, from: Date, to: Date)
    requires ValidDate(from) && ValidDate(to) && f != []
    ensures var titles := ScheduleTitles(f);
      var lines := ScheduleLines(f, from, to);
      && titles != []
      && lines == [Header(from, to) + "\n"] + Interleaved(TitleBlocks(f, titles))
      && lines[|lines| - 1] != Separator
  {
    ScheduleTitlesNonEmpty(f);
    LastBlockEndsWithShowing(f);
    LinesOfBlocks(Header(from, to) + "\n", TitleBlocks(f, ScheduleTitles(f)));
  }

  lemma LastBlockEndsWithShowing(f: seq<Screening>)
    requires f != []
    ensures var blocks := TitleBlocks(f, ScheduleTitles(f));
      && blocks != [] && blocks[|blocks| - 1] != []
      && blocks[|blocks| - 1][|blocks[|blocks| - 1]| - 1] != Separator
  {
    var titles := ScheduleTitles(f);
    ScheduleTitlesNonEmpty(f);
    var t := titles[|titles| - 1];
    LastTitleShown(f);
    BlockEndsWithShowing(f, t);
    LastTitleBlock(f, titles);
  }

  lemma ScheduleTitlesNonEmpty(f: seq<Screening>)
    requires f != []
    ensures ScheduleTitles(f) != []
  {
    ScheduleTitlesSpec(f);
    var s0 := f[0];
    assert s0 in f;
    assert s0.title in ScheduleTitles(f);
  }

  lemma LastTitleShown(f: seq<Screening>)
    requires ScheduleTitles(f) != []
    ensures var titles := ScheduleTitles(f); exists s :: s in f && s.title == titles[|titles| - 1]
  {
    var titles := ScheduleTitles(f);
    ScheduleTitlesSpec(f);
    var t := titles[|titles| - 1];
    assert t in titles;
  }

  lemma LastTitleBlock(f: seq<Screening>, titles: seq<string>)
    requires titles != []
    ensures TitleBlocks(f, titles)[|titles| - 1] == TitleBlock(f, titles[|titles| - 1])
  {
  }

  /** Dropping the final separator from terminated blocks leaves them interleaved. */
  lemma LinesOfBlocks(h: string, blocks: seq<seq<string>>)
    requires blocks != [] && blocks[|blocks| - 1] != []
    requires blocks[|blocks| - 1][|blocks[|blocks| - 1]| - 1] != Separator
    ensures var lines := [h] + Terminated(blocks);
      && lines[|lines| - 1] == Separator
      && lines[..|lines| - 1] == [h] + Interleaved(blocks)
      && Interleaved(blocks)[|Interleaved(blocks)| - 1] != Separator
  {
    TerminatedInterleaved(blocks);
    InterleavedLast(blocks);
    var lines := [h] + Terminated(blocks);
    assert lines == [h] + Interleaved(blocks) + [Separator];
  }

  /** Whatever is kept, the note opens with the header line and a blank line. */
  lemma ScheduleStartsWithHeader(all: seq<Screening>, from: Date, to: Date, minTime: Option<string>)
    requires ValidDate(from) && ValidDate(to)
    ensures Header(from, to) + "\n\n" <= ScheduleText(all, from, to, minTime)
  {
    var f := ScheduleFiltered(all, from, to, minTime);
    var h := Header(from, to);
    if f != [] {
      ScheduleLayout(all, from, to, minTime);
      var lines := ScheduleLines(f, from, to);
      assert |lines| >= 2;
      JoinedHeader(lines, h);
    }
  }

  /** Joined by newlines, a first line that ends in a newline leaves a blank line after it. */
  lemma JoinedHeader(lines: seq<string>, h: string)
    requires |lines| >= 2 && lines[0] == h + "\n"
    ensures h + "\n\n" <= Join(lines, "\n")
  {
    assert Join(lines, "\n") == (h + "\n\n") + Join(lines[1..], "\n");
  }

  /** When no screening is in range, the note says so under the header. */
  lemma EmptySchedule(all: seq<Screening>, from: Date, to: Date, minTime: Option<string>)
    requires ValidDate(from) && ValidDate(to)
    requires forall s :: s in all ==> !Keep(s, from, to, minTime, None, None)
    ensures ScheduleText(all, from, to, minTime) == Header(from, to) + "\n\nNo screenings found."
  {
    var f := ScheduleFiltered(all, from, to, minTime);
    if f != [] {
      var s := f[0];
      assert s in f;
      FilteredMembers(all, from, to, minTime, None, None, s);
    }
  }

  /**
    Every screening in the date range and not before the earliest time puts
    its film in the note, whatever its cinema or how late it starts.
  */
  lemma ScheduleListsKeptFilms(all: seq<Screening>, from: Date, to: Date, minTime: Option<string>, s: Screening)
    requires s in all && Keep(s, from, to, minTime, None, None)
    ensures s.title in ScheduleTitles(ScheduleFiltered(all, from, to, minTime))
  {
    var f := ScheduleFiltered(all, from, to, minTime);
    FilteredMembers(all, from, to, minTime, None, None, s);
    ScheduleTitlesSpec(f);
  }

  // ---------------------------------------------------------------- the formatter

  lemma TitlesOfSnoc(ss: seq<Screening>, s: Screening)
    ensures TitlesOf(ss + [s]) == TitlesOf(ss) + [s.title]
  {
  }

  lemma ShowingsOfSnoc(ss: seq<Screening>, s: Screening)
    ensures ShowingsOf(ss + [s]) == ShowingsOf(ss) + [ShowingOf(s)]
  {
  }

  lemma {:induction false} WithTitleAbsent(ss: seq<Screening>, t: string)
    requires t !in TitlesOf(ss)
    ensures WithTitle(ss, t) == []
    decreases |ss|
  {
    if ss != [] {
      var p := ss[..|ss| - 1];
      assert TitlesOf(ss) == TitlesOf(p) + [ss[|ss| - 1].title];
      WithTitleAbsent(p, t);
    }
  }

  lemma {:induction false} DatesOfShowingAbsent(ss: seq<Screening>, key: Showing)
    requires key !in ShowingsOf(ss)
    ensures DatesOfShowing(ss, key) == []
    decreases |ss|
  {
    if ss != [] {
      var p := ss[..|ss| - 1];
      assert ShowingsOf(ss) == ShowingsOf(p) + [ShowingOf(ss[|ss| - 1])];
      DatesOfShowingAbsent(p, key);
    }
  }

  lemma MoviesStep(before: map<string, seq<Screening>>, p: seq<Screening>, s: Screening)
    requires forall t :: t in before ==> before[t] == WithTitle(p, t)
    requires s.title !in before ==> s.title !in TitlesOf(p)
    ensures var after := before[s.title := (if s.title in before then before[s.title] else []) + [s]];
      forall t :: t in after ==> after[t] == WithTitle(p + [s], t)
  {
    var after := before[s.title := (if s.title in before then before[s.title] else []) + [s]];
    forall t | t in after ensures after[t] == WithTitle(p + [s], t) {
      WithTitleSnoc(p, s, t);
      if t == s.title && t !in before {
        WithTitleAbsent(p, t);
      }
    }
  }

  lemma GroupsStep(before: map<Showing, seq<int>>, p: seq<Screening>, s: Screening)
    requires forall k :: k in before ==> before[k] == DatesOfShowing(p, k)
    requires ShowingOf(s) !in before ==> ShowingOf(s) !in ShowingsOf(p)
    ensures var key := ShowingOf(s);
      var after := before[key := (if key in before then before[key] else []) + [DayOrdinal(s)]];
      forall k :: k in after ==> after[k] == DatesOfShowing(p + [s], k)
  {
    var key := ShowingOf(s);
    var after := before[key := (if key in before then before[key] else []) + [DayOrdinal(s)]];
    forall k | k in after ensures after[k] == DatesOfShowing(p + [s], k) {
      DatesOfShowingSnoc(p, s, k);
      if k == key && k !in before {
        DatesOfShowingAbsent(p, k);
      }
    }
  }

  /** `movies` holds, under each film of `order`, that film's screenings in `ss`; `order` lists the films first-seen first. */
  ghost predicate GroupedByTitle(movies: map<string, seq<Screening>>, order: seq<string>, ss: seq<Screening>)
  {
    && order == Dedup(TitlesOf(ss))
    && (forall t :: t in movies <==> t in order)
    && (forall t :: t in movies ==> movies[t] == WithTitle(ss, t))
  }

  /** One iteration of the grouping loop keeps the grouping exact. */
  lemma GroupTitleStep(movies: map<string, seq<Screening>>, order: seq<string>, p: seq<Screening>, s: Screening,
                       movies': map<string, seq<Screening>>, order': seq<string>)
    requires GroupedByTitle(movies, order, p)
    requires movies' == movies[s.title := (if s.title in movies then movies[s.title] else []) + [s]]
    requires order' == if s.title in movies then order else order + [s.title]
    ensures GroupedByTitle(movies', order', p + [s])
  {
    var t := s.title;
    TitlesOfSnoc(p, s);
    DedupSnoc(TitlesOf(p), t);
    DedupSpec(TitlesOf(p));
    assert t in movies <==> t in Dedup(TitlesOf(p));
    assert order' == Dedup(TitlesOf(p + [s]));
    KeysStep(movies, order, t, movies'[t], movies', order');
    MoviesStep(movies, p, s);
  }

  /** Groups the kept screenings by film, keeping the films in first-seen order. */
  method GroupByTitle(filtered: seq<Screening>) returns (movies: map<string, seq<Screening>>, order: seq<string>)
    ensures order == Dedup(TitlesOf(filtered))
    ensures forall t :: t in movies <==> t in order
    ensures forall t :: t in movies ==> movies[t] == WithTitle(filtered, t)
  {
    movies := map[];
    order := [];
    for i := 0 to |filtered|
      invariant GroupedByTitle(movies, order, filtered[..i])
    {
      var s := filtered[i];
      ghost var (before, seen) := (movies, order);
      if s.title !in movies {
        movies := movies[s.title := []];
        order := order + [s.title];
      }
      movies := movies[s.title := movies[s.title] + [s]];
      GroupTitleStep(before, seen, filtered[..i], s, movies, order);
      assert filtered[..i + 1] == filtered[..i] + [s];
    }
    assert filtered[..|filtered|] == filtered;
  }

  /** `groups` holds, under each showing of `keys`, the days it is on in `ss`; `keys` lists the showings first-seen first. */
  ghost predicate GroupedByShowing(groups: map<Showing, seq<int>>, keys: seq<Showing>, ss: seq<Screening>)
  {
    && keys == Dedup(ShowingsOf(ss))
    && (forall k :: k in groups <==> k in keys)
    && (forall k :: k in groups ==> groups[k] == DatesOfShowing(ss, k))
  }

  lemma GroupShowingStep(groups: map<Showing, seq<int>>, keys: seq<Showing>, p: seq<Screening>, s: Screening,
                         groups': map<Showing, seq<int>>, keys': seq<Showing>)
    requires GroupedByShowing(groups, keys, p)
    requires var key := ShowingOf(s);
      groups' == groups[key := (if key in groups then groups[key] else []) + [DayOrdinal(s)]]
    requires keys' == if ShowingOf(s) in groups then keys else keys + [ShowingOf(s)]
    ensures GroupedByShowing(groups', keys', p + [s])
  {
    var key := ShowingOf(s);
    ShowingsOfSnoc(p, s);
    DedupSnoc(ShowingsOf(p), key);
    DedupSpec(ShowingsOf(p));
    assert key in groups <==> key in Dedup(ShowingsOf(p));
    KeysStep(groups, keys, key, groups'[key], groups', keys');
    GroupsStep(groups, p, s);
  }

  /** Groups one film's screenings by (time, cinema), collecting their days. */
  method GroupByShowing(screenings: seq<Screening>) returns (groups: map<Showing, seq<int>>, keys: seq<Showing>)
    ensures keys == Dedup(ShowingsOf(screenings))
    ensures forall k :: k in groups <==> k in keys
    ensures forall k :: k in groups ==> groups[k] == DatesOfShowing(screenings, k)
  {
    groups := map[];
    keys := [];
    for i := 0 to |screenings|
      invariant GroupedByShowing(groups, keys, screenings[..i])
    {
      var s := screenings[i];
      var key := (s.time, s.cinema);
      ghost var (before, seen) := (groups, keys);
      if key !in groups {
        groups := groups[key := []];
        keys := keys + [key];
      }
      groups := groups[key := groups[key] + [DayOrdinal(s)]];
      GroupShowingStep(before, seen, screenings[..i], s, groups, keys);
      assert screenings[..i + 1] == screenings[..i] + [s];
    }
    assert screenings[..|screenings|] == screenings;
  }

  /** The showing lines of one film, built as `format_schedule` builds `parts`. */
  method ShowingParts(screenings: seq<Screening>) returns (parts: seq<string>)
    ensures parts == GroupLines(screenings, ShowingKeys(screenings))
  {
    var groups, keys := GroupByShowing(screenings);
    var sortedKeys := SortBy(keys, ShowingLe);
    parts := [];
    for g := 0 to |sortedKeys|
      invariant parts == GroupLines(screenings, sortedKeys[..g])
    {
      var key := sortedKeys[g];
      assert key in multiset(sortedKeys);
      assert key in keys;
      var dayRange := CollapseDays(groups[key]);
      GroupLinesPrefix(screenings, sortedKeys, g);
      parts := parts + [dayRange + " " + key.0 + ", " + key.1];
    }
    assert sortedKeys[..|sortedKeys|] == sortedKeys;
  }

  /** Appends one film's block and its separator to `lines`. */
  method AppendBlock(lines: seq<string>, title: string, parts: seq<string>) returns (out: seq<string>)
    ensures out == lines + Block(title, parts) + [Separator]
  {
    out := lines;
    if |parts| == 1 {
      out := out + [title + " — " + parts[0]];
    } else {
      out := out + [title];
      ghost var head := out;
      for p := 0 to |parts|
        invariant out == head + parts[..p]
      {
        assert parts[..p + 1] == parts[..p] + [parts[p]];
        out := out + [parts[p]];
      }
      assert parts[..|parts|] == parts;
      assert Block(title, parts) == [title] + parts;
    }
    assert out == lines + Block(title, parts);
    out := out + ["---"];
  }

  lemma TitleBlockOfParts(f: seq<Screening>, t: string, parts: seq<string>)
    requires parts == Parts(f, t)
    ensures TitleBlock(f, t) == Block(t, parts)
  {
  }

  lemma TitleBlocksSnoc(f: seq<Screening>, titles: seq<string>, k: int)
    requires 0 <= k < |titles|
    ensures TitleBlocks(f, titles[..k + 1]) == TitleBlocks(f, titles[..k]) + [TitleBlock(f, titles[k])]
  {
    assert titles[..k + 1][..k] == titles[..k];
  }

  lemma RenderStep(blocks: seq<seq<string>>, block: seq<string>, header: seq<string>,
                   prev: seq<string>, next: seq<string>)
    requires prev == header + Terminated(blocks)
    requires next == prev + block + [Separator]
    ensures next == header + Terminated(blocks + [block])
  {
    TerminatedSnoc(blocks, block);
  }

  /** Appends every film's block, in the order of `titles`. */
  method RenderBlocks(filtered: seq<Screening>, movies: map<string, seq<Screening>>, titles: seq<string>,
                      header: seq<string>) returns (lines: seq<string>)
    requires forall t :: t in titles ==> t in movies && movies[t] == WithTitle(filtered, t)
    ensures lines == header + Terminated(TitleBlocks(filtered, titles))
  {
    lines := header;
    for k := 0 to |titles|
      invariant lines == header + Terminated(TitleBlocks(filtered, titles[..k]))
    {
      var title := titles[k];
      var parts := ShowingParts(movies[title]);
      ghost var prev := lines;
      lines := AppendBlock(lines, title, parts);
      TitleBlockOfParts(filtered, title, parts);
      TitleBlocksSnoc(filtered, titles, k);
      RenderStep(TitleBlocks(filtered, titles[..k]), Block(title, parts), header, prev, lines);
    }
    assert titles[..|titles|] == titles;
  }

  /** A permutation of the first-seen titles names only films that were grouped. */
  lemma SortedTitlesGrouped(filtered: seq<Screening>, movies: map<string, seq<Screening>>, order: seq<string>,
                            titles: seq<string>)
    requires forall t :: t in movies <==> t in order
    requires forall t :: t in movies ==> movies[t] == WithTitle(filtered, t)
    requires multiset(titles) == multiset(order)
    ensures forall t :: t in titles ==> t in movies && movies[t] == WithTitle(filtered, t)
  {
    forall t | t in titles ensures t in order {
      assert t in multiset(titles);
    }
  }

  /** The first loop of `format_schedule`: the date range and the earliest time. */
  method ScheduleFilter(all: seq<Screening>, from: Date, to: Date, minTime: Option<string>) returns (filtered: seq<Screening>)
    ensures filtered == ScheduleFiltered(all, from, to, minTime)
  {
    filtered := [];
    for i := 0 to |all|
      invariant filtered == Filtered(all[..i], from, to, minTime, None, None)
    {
      var s := all[i];
      FilterStep(all, i, from, to, minTime, None, None);
      var d := ParseIso(s.date);
      if d.None? {
        continue;
      }
      if Before(d.value, from) || Before(to, d.value) {
        continue;
      }
      if minTime.Some? && minTime.value != "" && LexLess(s.time, minTime.value) {
        continue;
      }
      filtered := filtered + [s];
    }
    assert all[..|all|] == all;
  }

  /**
    `format_schedule`: keeps the screenings in the date range and not before
    the earliest time, and renders them as the markdown note.
  */
  method FormatSchedule(all: seq<Screening>, from: Date, to: Date, minTime: Option<string>) returns (text: string)
    requires ValidDate(from) && ValidDate(to)
    ensures text == ScheduleText(all, from, to, minTime)
  {
    var filtered := ScheduleFilter(all, from, to, minTime);
    if filtered == [] {
      return Header(from, to) + "\n\nNo screenings found.";
    }

    var movies, order := GroupByTitle(filtered);
    var titles := SortBy(order, TitleKeyLe);
    SortedTitlesGrouped(filtered, movies, order, titles);
    var lines := RenderBlocks(filtered, movies, titles, [Header(from, to) + "\n"]);
    if |lines| > 0 && lines[|lines| - 1] == "---" {
      lines := lines[..|lines| - 1];
    }
    text := Join(lines, "\n");
  }
}
