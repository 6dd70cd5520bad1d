/**
  The logic shared by the command line and the web front end: pooling the
  screenings of every cinema with one or two status lines per source,
  filtering the pool, and counting it.
*/
module Core {
  import opened Wrappers
  import opened Text
  import opened Dates
  import opened Records
  import opened Seqs

  // ---------------------------------------------------------------- pooling the sources

  /** The parser registry in iteration order: each cinema's key and display name. */
  const Registry: seq<(string, string)> :=
    [("kika", "KIKA"), ("mikro", "Mikro"), ("agrafka", "Agrafka"),
     ("paradox", "Paradox"), ("baranami", "Barany"), ("kijow", "KijÃ³w")]

  /**
    What became of one source: its page could not be fetched, its parser
    raised an exception with this text, or it parsed into these records.
  */
  datatype SourceOutcome = FetchFailed | ParseFailed(message: string) | Parsed(records: seq<Record>)

  /**
    The status lines one source adds: one line, and a warning right after it
    when the parser found nothing.
  */
  function SourceStatus(name: string, outcome: SourceOutcome): (lines: seq<string>)
    ensures 1 <= |lines| <= 2
    ensures |lines| == 2 <==> outcome == Parsed([])
  {
    match outcome
    case FetchFailed => ["⚠ " + name + ": fetch failed"]
    case ParseFailed(message) => ["⚠ " + name + ": parse failed (" + message + ")"]
    case Parsed(records) =>
      ["✓ " + name + " (" + NatToString(|records|) + ")"]
      + (if |records| == 0 then ["⚠ WARNING: " + name + " returned 0 screenings"] else [])
  }

  /** The screenings one source adds: its records tagged with its name when it parsed, none otherwise. */
  function SourceScreenings(name: string, outcome: SourceOutcome): (ss: seq<Screening>)
    ensures forall i :: 0 <= i < |ss| ==> ss[i].cinema == name
    ensures outcome.Parsed? ==> |ss| == |outcome.records|
    ensures !outcome.Parsed? ==> ss == []
  {
    if outcome.Parsed? then TagAll(outcome.records, name) else []
  }

  /** The pooled screenings of `sources`, source after source. */
  function Pooled(sources: seq<(string, string)>, outcome: string -> SourceOutcome): seq<Screening>
  {
    if sources == [] then []
    else
      var last := sources[|sources| - 1];
      Pooled(sources[..|sources| - 1], outcome) + SourceScreenings(last.1, outcome(last.0))
  }

  /** The status lines of `sources`, source after source. */
  function StatusLines(sources: seq<(string, string)>, outcome: string -> SourceOutcome): seq<string>
  {
    if sources == [] then []
    else
      var last := sources[|sources| - 1];
      StatusLines(sources[..|sources| - 1], outcome) + SourceStatus(last.1, outcome(last.0))
  }

  /** One more source appends its screenings and its status lines. */
  lemma FoldStep(sources: seq<(string, string)>, i: int, outcome: string -> SourceOutcome)
    requires 0 <= i < |sources|
    ensures Pooled(sources[..i + 1], outcome) == Pooled(sources[..i], outcome) + SourceScreenings(sources[i].1, outcome(sources[i].0))
    ensures StatusLines(sources[..i + 1], outcome) == StatusLines(sources[..i], outcome) + SourceStatus(sources[i].1, outcome(sources[i].0))
  {
    assert sources[..i + 1][..i] == sources[..i];
  }

  /** Tags the records of one source, one after another. */
  method TagRecords(records: seq<Record>, name: string) returns (tagged: seq<Screening>)
    ensures tagged == TagAll(records, name)
  {
    tagged := [];
    for j := 0 to |records|
      invariant tagged == TagAll(records[..j], name)
    {
      assert records[..j + 1][..j] == records[..j];
      tagged := tagged + [Tag(records[j], name)];
    }
    assert records[..|records|] == records;
  }

  /** The body of the loop at core.py lines 20-37 for one source: its screenings and its status lines. */
  method HandleSource(name: string, o: SourceOutcome) returns (tagged: seq<Screening>, lines: seq<string>)
    ensures tagged == SourceScreenings(name, o)
    ensures lines == SourceStatus(name, o)
  {
    tagged := [];
    match o
    case FetchFailed =>
      lines := ["⚠ " + name + ": fetch failed"];
    case ParseFailed(message) =>
      lines := ["⚠ " + name + ": parse failed (" + message + ")"];
    case Parsed(records) =>
      tagged := TagRecords(records, name);
      lines := ["✓ " + name + " (" + NatToString(|records|) + ")"];
      if |records| == 0 {
        lines := lines + ["⚠ WARNING: " + name + " returned 0 screenings"];
      }
  }

  /**
    `fetch_all_screenings` (core.py, lines 9-39), with the fetch and the parse of each
    source replaced by that source's outcome.
  */
  method FetchAllScreenings(outcome: string -> SourceOutcome) returns (screenings: seq<Screening>, status: seq<string>)
    ensures screenings == Pooled(Registry, outcome)
    ensures status == StatusLines(Registry, outcome)
  {
    screenings := [];
    status := [];
    for i := 0 to |Registry|
      invariant screenings == Pooled(Registry[..i], outcome)
      invariant status == StatusLines(Registry[..i], outcome)
    {
      var (key, name) := Registry[i];
      FoldStep(Registry, i, outcome);
      var tagged, lines := HandleSource(name, outcome(key));
      screenings := screenings + tagged;
      status := status + lines;
    }
    assert Registry[..|Registry|] == Registry;
  }

  /** The screenings of `ss` whose cinema is `cinema`, in order. */
  function OfCinema(ss: seq<Screening>, cinema: string): seq<Screening>
  {
    if ss == [] then []
    else OfCinema(ss[..|ss| - 1], cinema) + (if ss[|ss| - 1].cinema == cinema then [ss[|ss| - 1]] else [])
  }

  lemma {:induction false} OfCinemaConcat(a: seq<Screening>, b: seq<Screening>, cinema: string)
    ensures OfCinema(a + b, cinema) == OfCinema(a, cinema) + OfCinema(b, cinema)
    decreases |b|
  {
    if b != [] {
      var b' := b[..|b| - 1];
      assert (a + b)[..|a + b| - 1] == a + b';
      OfCinemaConcat(a, b', cinema);
    } else {
      assert a + b == a;
    }
  }

  lemma {:induction false} OfCinemaAll(ss: seq<Screening>, cinema: string)
    requires forall i :: 0 <= i < |ss| ==> ss[i].cinema == cinema
    ensures OfCinema(ss, cinema) == ss
    decreases |ss|
  {
    if ss != [] {
      OfCinemaAll(ss[..|ss| - 1], cinema);
    }
  }

  lemma {:induction false} OfCinemaNone(ss: seq<Screening>, cinema: string)
    requires forall i :: 0 <= i < |ss| ==> ss[i].cinema != cinema
    ensures OfCinema(ss, cinema) == []
    decreases |ss|
  {
    if ss != [] {
      OfCinemaNone(ss[..|ss| - 1], cinema);
    }
  }

  ghost predicate DistinctNames(sources: seq<(string, string)>)
  {
    forall i, j :: 0 <= i < j < |sources| ==> sources[i].1 != sources[j].1
  }

  lemma RegistryNamesDistinct()
    ensures DistinctNames(Registry)
  {
  }

  /**
    With distinct display names, the pooled screenings of one cinema are
    exactly what its own outcome contributes, in the parser's order: all its
    records tagged with its name when it parsed, nothing when its fetch or its
    parse failed.
  */
  lemma {:induction false} PooledByCinema(sources: seq<(string, string)>, outcome: string -> SourceOutcome, j: int)
    requires DistinctNames(sources) && 0 <= j < |sources|
    ensures OfCinema(Pooled(sources, outcome), sources[j].1) == SourceScreenings(sources[j].1, outcome(sources[j].0))
    decreases |sources|
  {
    var n := |sources| - 1;
    var init := sources[..n];
    var last := sources[n];
    var name := sources[j].1;
    var own := SourceScreenings(last.1, outcome(last.0));
    OfCinemaConcat(Pooled(init, outcome), own, name);
    if j == n {
      OfCinemaNoneBefore(init, outcome, name);
      OfCinemaAll(own, name);
    } else {
      PooledByCinema(init, outcome, j);
      assert init[j] == sources[j];
      OfCinemaNone(own, name);
    }
  }

  lemma {:induction false} OfCinemaNoneBefore(sources: seq<(string, string)>, outcome: string -> SourceOutcome, name: string)
    requires forall i :: 0 <= i < |sources| ==> sources[i].1 != name
    ensures OfCinema(Pooled(sources, outcome), name) == []
    decreases |sources|
  {
    if sources != [] {
      var n := |sources| - 1;
      OfCinemaNoneBefore(sources[..n], outcome, name);
      var own := SourceScreenings(sources[n].1, outcome(sources[n].0));
      OfCinemaConcat(Pooled(sources[..n], outcome), own, name);
      OfCinemaNone(own, name);
    }
  }

  /** Every pooled screening carries the name of a source that parsed, and is one of its records. */
  lemma {:induction false} PooledFromParsedSources(sources: seq<(string, string)>, outcome: string -> SourceOutcome)
    ensures forall s :: s in Pooled(sources, outcome) ==>
      (exists j :: 0 <= j < |sources| && s.cinema == sources[j].1 && outcome(sources[j].0).Parsed?
                   && Untag(s) in outcome(sources[j].0).records)
    decreases |sources|
  {
    if sources != [] {
      var n := |sources| - 1;
      var init := sources[..n];
      PooledFromParsedSources(init, outcome);
      var o := outcome(sources[n].0);
      forall s | s in Pooled(sources, outcome)
        ensures (exists j :: 0 <= j < |sources| && s.cinema == sources[j].1 && outcome(sources[j].0).Parsed?
                              && Untag(s) in outcome(sources[j].0).records)
      {
        if s in Pooled(init, outcome) {
          var j :| 0 <= j < |init| && s.cinema == init[j].1 && outcome(init[j].0).Parsed?
            && Untag(s) in outcome(init[j].0).records;
          assert init[j] == sources[j];
        } else {
          OwnScreening(sources[n].1, o, s);
          assert sources[n].1 == s.cinema;
        }
      }
    }
  }

  lemma OwnScreening(name: string, o: SourceOutcome, s: Screening)
    requires s in SourceScreenings(name, o)
    ensures o.Parsed? && s.cinema == name && Untag(s) in o.records
  {
    var own := SourceScreenings(name, o);
    var k :| 0 <= k < |own| && own[k] == s;
    assert Untag(s) == o.records[k];
  }

  /** The outcomes of the example run below. */
  ghost predicate ExampleOutcomes(outcome: string -> SourceOutcome, r1: Record, r2: Record, r3: Record)
  {
    && outcome("kika") == Parsed([r1, r2]) && outcome("mikro") == Parsed([])
    && outcome("agrafka") == FetchFailed && outcome("paradox") == ParseFailed("boom")
    && outcome("baranami") == Parsed([r3]) && outcome("kijow") == FetchFailed
  }

  /** Pooling two runs of sources is pooling the first, then the second. */
  lemma FoldAppend(a: seq<(string, string)>, b: seq<(string, string)>, outcome: string -> SourceOutcome)
    ensures Pooled(a + b, outcome) == Pooled(a, outcome) + Pooled(b, outcome)
    ensures StatusLines(a + b, outcome) == StatusLines(a, outcome) + StatusLines(b, outcome)
  {
    PooledAppend(a, b, outcome);
    StatusAppend(a, b, outcome);
  }

  lemma {:induction false} PooledAppend(a: seq<(string, string)>, b: seq<(string, string)>, outcome: string -> SourceOutcome)
    ensures Pooled(a + b, outcome) == Pooled(a, outcome) + Pooled(b, outcome)
    decreases |b|
  {
    if b == [] {
      assert a + b == a;
    } else {
      var b', last := b[..|b| - 1], b[|b| - 1];
      var ab := a + b;
      assert ab[..|ab| - 1] == a + b' && ab[|ab| - 1] == last;
      PooledAppend(a, b', outcome);
      var own := SourceScreenings(last.1, outcome(last.0));
      AppendStep(Pooled(ab, outcome), Pooled(a + b', outcome), Pooled(a, outcome), Pooled(b, outcome), Pooled(b', outcome), own);
    }
  }

  lemma {:induction false} StatusAppend(a: seq<(string, string)>, b: seq<(string, string)>, outcome: string -> SourceOutcome)
    ensures StatusLines(a + b, outcome) == StatusLines(a, outcome) + StatusLines(b, outcome)
    decreases |b|
  {
    if b == [] {
      assert a + b == a;
    } else {
      var b', last := b[..|b| - 1], b[|b| - 1];
      var ab := a + b;
      assert ab[..|ab| - 1] == a + b' && ab[|ab| - 1] == last;
      StatusAppend(a, b', outcome);
      var own := SourceStatus(last.1, outcome(last.0));
      AppendStep(StatusLines(ab, outcome), StatusLines(a + b', outcome), StatusLines(a, outcome), StatusLines(b, outcome), StatusLines(b', outcome), own);
    }
  }

  lemma FoldThree(x: (string, string), y: (string, string), z: (string, string), outcome: string -> SourceOutcome)
    ensures Pooled([x, y, z], outcome)
      == SourceScreenings(x.1, outcome(x.0)) + SourceScreenings(y.1, outcome(y.0)) + SourceScreenings(z.1, outcome(z.0))
    ensures StatusLines([x, y, z], outcome)
      == SourceStatus(x.1, outcome(x.0)) + SourceStatus(y.1, outcome(y.0)) + SourceStatus(z.1, outcome(z.0))
  {
    FoldAppend([x], [y], outcome);
    FoldAppend([x, y], [z], outcome);
    assert [x] + [y] == [x, y] && [x, y] + [z] == [x, y, z];
    FoldOne(x, outcome);
    FoldOne(y, outcome);
    FoldOne(z, outcome);
  }

  lemma FoldOne(x: (string, string), outcome: string -> SourceOutcome)
    ensures Pooled([x], outcome) == SourceScreenings(x.1, outcome(x.0))
    ensures StatusLines([x], outcome) == SourceStatus(x.1, outcome(x.0))
  {
    assert [x][..0] == [];
  }

  lemma RegistryHalves()
    ensures Registry == [("kika", "KIKA"), ("mikro", "Mikro"), ("agrafka", "Agrafka")]
                        + [("paradox", "Paradox"), ("baranami", "Barany"), ("kijow", "KijÃ³w")]
  {
  }

  lemma ExampleFirstThree(outcome: string -> SourceOutcome, r1: Record, r2: Record, r3: Record)
    requires ExampleOutcomes(outcome, r1, r2, r3)
    ensures Pooled([("kika", "KIKA"), ("mikro", "Mikro"), ("agrafka", "Agrafka")], outcome) == TagAll([r1, r2], "KIKA")
    ensures StatusLines([("kika", "KIKA"), ("mikro", "Mikro"), ("agrafka", "Agrafka")], outcome)
         == SourceStatus("KIKA", Parsed([r1, r2])) + SourceStatus("Mikro", Parsed([])) + SourceStatus("Agrafka", FetchFailed)
  {
    FoldThree(("kika", "KIKA"), ("mikro", "Mikro"), ("agrafka", "Agrafka"), outcome);
  }

  lemma ExampleLastThree(outcome: string -> SourceOutcome, r1: Record, r2: Record, r3: Record)
    requires ExampleOutcomes(outcome, r1, r2, r3)
    ensures Pooled([("paradox", "Paradox"), ("baranami", "Barany"), ("kijow", "KijÃ³w")], outcome) == TagAll([r3], "Barany")
    ensures StatusLines([("paradox", "Paradox"), ("baranami", "Barany"), ("kijow", "KijÃ³w")], outcome)
         == SourceStatus("Paradox", ParseFailed("boom")) + SourceStatus("Barany", Parsed([r3])) + SourceStatus("KijÃ³w", FetchFailed)
  {
    FoldThree(("paradox", "Paradox"), ("baranami", "Barany"), ("kijow", "KijÃ³w"), outcome);
  }

  lemma ExampleWhole(outcome: string -> SourceOutcome, r1: Record, r2: Record, r3: Record)
    requires ExampleOutcomes(outcome, r1, r2, r3)
    ensures Pooled(Registry, outcome) == TagAll([r1, r2], "KIKA") + TagAll([r3], "Barany")
    ensures StatusLines(Registry, outcome)
         == SourceStatus("KIKA", Parsed([r1, r2])) + SourceStatus("Mikro", Parsed([])) + SourceStatus("Agrafka", FetchFailed)
            + (SourceStatus("Paradox", ParseFailed("boom")) + SourceStatus("Barany", Parsed([r3])) + SourceStatus("KijÃ³w", FetchFailed))
  {
    RegistryHalves();
    FoldAppend([("kika", "KIKA"), ("mikro", "Mikro"), ("agrafka", "Agrafka")],
               [("paradox", "Paradox"), ("baranami", "Barany"), ("kijow", "KijÃ³w")], outcome);
    ExampleFirstThree(outcome, r1, r2, r3);
    ExampleLastThree(outcome, r1, r2, r3);
  }

  /**
    A run where KIKA parses two records, Mikro none, Agrafka cannot be fetched,
    Paradox's parser raises, Pod Baranami parses one record and Kijów cannot be
    fetched: three records are pooled, in registry order.
  */
  lemma AggregationExampleScreenings(outcome: string -> SourceOutcome, r1: Record, r2: Record, r3: Record)
    requires ExampleOutcomes(outcome, r1, r2, r3)
    ensures Pooled(Registry, outcome) == [Tag(r1, "KIKA"), Tag(r2, "KIKA"), Tag(r3, "Barany")]
  {
    assert TagAll([r1, r2], "KIKA") == [Tag(r1, "KIKA"), Tag(r2, "KIKA")] by {
      assert [r1, r2][..1] == [r1];
    }
    assert TagAll([r3], "Barany") == [Tag(r3, "Barany")];
    ExampleWhole(outcome, r1, r2, r3);
  }

  /** The same run's status lines: one per source in registry order, and Mikro's warning right after its line. */
  lemma AggregationExampleStatus(outcome: string -> SourceOutcome, r1: Record, r2: Record, r3: Record)
    requires ExampleOutcomes(outcome, r1, r2, r3)
    ensures StatusLines(Registry, outcome)
         == ["✓ KIKA (2)", "✓ Mikro (0)", "⚠ WARNING: Mikro returned 0 screenings", "⚠ Agrafka: fetch failed",
             "⚠ Paradox: parse failed (boom)", "✓ Barany (1)", "⚠ KijÃ³w: fetch failed"]
  {
    StatusKika(r1, r2);
    StatusMikro();
    StatusAgrafka();
    StatusParadox();
    StatusBarany(r3);
    StatusKijow();
    ExampleWhole(outcome, r1, r2, r3);
  }

  lemma StatusKika(r1: Record, r2: Record)
    ensures SourceStatus("KIKA", Parsed([r1, r2])) == ["✓ KIKA (2)"]
  {
    assert NatToString(2) == "2";
    assert "✓ " + "KIKA" + " (" + "2" + ")" == "✓ KIKA (2)";
  }

  lemma StatusMikro()
    ensures SourceStatus("Mikro", Parsed([])) == ["✓ Mikro (0)", "⚠ WARNING: Mikro returned 0 screenings"]
  {
    assert NatToString(0) == "0";
    MikroLines();
  }

  lemma MikroLines()
    ensures "✓ " + "Mikro" + " (" + "0" + ")" == "✓ Mikro (0)"
    ensures "⚠ WARNING: " + "Mikro" + " returned 0 screenings" == "⚠ WARNING: Mikro returned 0 screenings"
  {
  }

  lemma StatusBarany(r3: Record)
    ensures SourceStatus("Barany", Parsed([r3])) == ["✓ Barany (1)"]
  {
    assert NatToString(1) == "1";
    assert "✓ " + "Barany" + " (" + "1" + ")" == "✓ Barany (1)";
  }

  lemma StatusAgrafka()
    ensures SourceStatus("Agrafka", FetchFailed) == ["⚠ Agrafka: fetch failed"]
  {
    assert "⚠ " + "Agrafka" + ": fetch failed" == "⚠ Agrafka: fetch failed";
  }

  lemma StatusParadox()
    ensures SourceStatus("Paradox", ParseFailed("boom")) == ["⚠ Paradox: parse failed (boom)"]
  {
    assert "⚠ " + "Paradox" + ": parse failed (" + "boom" + ")" == "⚠ Paradox: parse failed (boom)";
  }

  lemma StatusKijow()
    ensures SourceStatus("KijÃ³w", FetchFailed) == ["⚠ KijÃ³w: fetch failed"]
  {
    assert "⚠ " + "KijÃ³w" + ": fetch failed" == "⚠ KijÃ³w: fetch failed";
  }

  /** Each source adds one status line, or two when it parsed into nothing. */
  lemma {:induction false} StatusLineCount(sources: seq<(string, string)>, outcome: string -> SourceOutcome)
    ensures |sources| <= |StatusLines(sources, outcome)| <= 2 * |sources|
    decreases |sources|
  {
    if sources != [] {
      StatusLineCount(sources[..|sources| - 1], outcome);
    }
  }

  // ---------------------------------------------------------------- filtering

  /** A time bound applies only when it is given and non-empty: None and "" are both false in Python. */
  predicate Active(bound: Option<string>)
  {
    bound.Some? && bound.value != ""
  }

  /** The cinema filter applies only when the set is given and non-empty. */
  predicate CinemaFilterActive(cinemas: Option<set<string>>)
  {
    cinemas.Some? && cinemas.value != {}
  }

  /**
    The conditions of `filter_screenings` (core.py, lines 66-86) for one screening: a
    calendar date within the inclusive range, a time that is not before the
    lower bound or after the upper bound as strings, and a listed cinema.
  */
  predicate Keep(s: Screening, from: Date, to: Date, minTime: Option<string>, maxTime: Option<string>,
                 cinemas: Option<set<string>>)
  {
    match ParseIso(s.date)
    case None => false
    case Some(d) =>
      && !Before(d, from) && !Before(to, d)
      && !(Active(minTime) && LexLess(s.time, minTime.value))
      && !(Active(maxTime) && LexLess(maxTime.value, s.time))
      && !(CinemaFilterActive(cinemas) && s.cinema !in cinemas.value)
  }

  /** Each screening paired with whether it is kept. */
  function FilterCandidates(ss: seq<Screening>, from: Date, to: Date, minTime: Option<string>, maxTime: Option<string>,
                            cinemas: Option<set<string>>): (cs: seq<Option<Screening>>)
    ensures |cs| == |ss|
    ensures forall i :: 0 <= i < |ss| ==> cs[i] == if Keep(ss[i], from, to, minTime, maxTime, cinemas) then Some(ss[i]) else None
  {
    seq(|ss|, i requires 0 <= i < |ss| => if Keep(ss[i], from, to, minTime, maxTime, cinemas) then Some(ss[i]) else None)
  }

  /** The screenings that are kept, in their original order. */
  function Filtered(ss: seq<Screening>, from: Date, to: Date, minTime: Option<string>, maxTime: Option<string>,
                    cinemas: Option<set<string>>): seq<Screening>
  {
    Somes(FilterCandidates(ss, from, to, minTime, maxTime, cinemas))
  }

  /** One more screening is appended to the result exactly when it is kept. */
  lemma FilterStep(ss: seq<Screening>, i: int, from: Date, to: Date, minTime: Option<string>, maxTime: Option<string>,
                   cinemas: Option<set<string>>)
    requires 0 <= i < |ss|
    ensures Filtered(ss[..i + 1], from, to, minTime, maxTime, cinemas)
      == Filtered(ss[..i], from, to, minTime, maxTime, cinemas)
         + if Keep(ss[i], from, to, minTime, maxTime, cinemas) then [ss[i]] else []
  {
    var cs := FilterCandidates(ss[..i], from, to, minTime, maxTime, cinemas);
    var c := if Keep(ss[i], from, to, minTime, maxTime, cinemas) then Some(ss[i]) else None;
    assert FilterCandidates(ss[..i + 1], from, to, minTime, maxTime, cinemas) == cs + [c];
    SomesSnoc(cs, c);
  }

  /** `filter_screenings` (core.py, lines 42-88). */
  method FilterScreenings(screenings: seq<Screening>, from: Date, to: Date, minTime: Option<string>,
                          maxTime: Option<string>, cinemas: Option<set<string>>) returns (filtered: seq<Screening>)
    ensures filtered == Filtered(screenings, from, to, minTime, maxTime, cinemas)
  {
    filtered := [];
    for i := 0 to |screenings|
      invariant filtered == Filtered(screenings[..i], from, to, minTime, maxTime, cinemas)
    {
      var s := screenings[i];
      FilterStep(screenings, i, from, to, minTime, maxTime, cinemas);
      var d := ParseIso(s.date);
      if d.None? {
        continue;
      }
      if Before(d.value, from) || Before(to, d.value) {
        continue;
      }
      if minTime.Some? && minTime.value != "" && LexLess(s.time, minTime.value) {
        continue;
      }
      if maxTime.Some? && maxTime.value != "" && LexLess(maxTime.value, s.time) {
        continue;
      }
      if cinemas.Some? && cinemas.value != {} && s.cinema !in cinemas.value {
        continue;
      }
      filtered := filtered + [s];
    }
    assert screenings[..|screenings|] == screenings;
  }

  /**
    Soundness and completeness: a screening is in the result exactly when it is
    in the input and meets every active condition; records are not altered.
  */
  lemma FilteredMembers(ss: seq<Screening>, from: Date, to: Date, minTime: Option<string>, maxTime: Option<string>,
                        cinemas: Option<set<string>>, s: Screening)
    ensures s in Filtered(ss, from, to, minTime, maxTime, cinemas) <==> s in ss && Keep(s, from, to, minTime, maxTime, cinemas)
  {
    var cs := FilterCandidates(ss, from, to, minTime, maxTime, cinemas);
    SomesMember(cs, s);
    if Some(s) in cs {
      var i :| 0 <= i < |cs| && cs[i] == Some(s);
      assert ss[i] == s;
    }
    if s in ss && Keep(s, from, to, minTime, maxTime, cinemas) {
      var i :| 0 <= i < |ss| && ss[i] == s;
      assert cs[i] == Some(s);
    }
  }

  /**
    The result is a subsequence of the input in the input's order: its k-th
    screening is the input's screening at the k-th of a strictly increasing
    series of positions.
  */
  lemma FilteredInOrder(ss: seq<Screening>, from: Date, to: Date, minTime: Option<string>, maxTime: Option<string>,
                        cinemas: Option<set<string>>)
    ensures var r := Filtered(ss, from, to, minTime, maxTime, cinemas);
      var ps := SomePositions(FilterCandidates(ss, from, to, minTime, maxTime, cinemas));
      && |ps| == |r|
      && (forall k :: 0 <= k < |r| ==> ps[k] < |ss| && r[k] == ss[ps[k]])
      && (forall k, l :: 0 <= k < l < |r| ==> ps[k] < ps[l])
  {
    SomesAt(FilterCandidates(ss, from, to, minTime, maxTime, cinemas));
  }

  /** Every kept screening has a calendar date between the two bounds, both included. */
  lemma FilteredDatesInRange(ss: seq<Screening>, from: Date, to: Date, minTime: Option<string>, maxTime: Option<string>,
                             cinemas: Option<set<string>>, s: Screening)
    requires ValidDate(from) && ValidDate(to)
    requires s in Filtered(ss, from, to, minTime, maxTime, cinemas)
    ensures ParseIso(s.date).Some?
    ensures var d := ParseIso(s.date).value; Ordinal(from) <= Ordinal(d) <= Ordinal(to)
  {
    FilteredMembers(ss, from, to, minTime, maxTime, cinemas, s);
    var d := ParseIso(s.date).value;
    OrdinalOrder(d, from);
    OrdinalOrder(to, d);
  }

  /**
    An active time bound keeps exactly the times at or after the lower bound and
    at or before the upper bound, in string order: both bounds are inclusive.
  */
  lemma TimeBoundsInclusive(time: string, minTime: string, maxTime: string)
    ensures !LexLess(time, minTime) <==> LexLe(minTime, time)
    ensures !LexLess(maxTime, time) <==> LexLe(time, maxTime)
  {
    LexLessTotal(time, minTime);
    LexLessIrreflexive(time);
    if LexLess(minTime, time) {
      LexLessAsymmetric(minTime, time);
    }
    LexLessTotal(maxTime, time);
    if LexLess(time, maxTime) {
      LexLessAsymmetric(time, maxTime);
    }
  }

  /** A bound of None or "" and a cinema set of None or {} filter nothing out. */
  lemma InactiveFiltersAgree(s: Screening, from: Date, to: Date)
    ensures Keep(s, from, to, Some(""), Some(""), Some({})) == Keep(s, from, to, None, None, None)
    ensures Keep(s, from, to, None, None, None) <==> exists d :: ParseIso(s.date) == Some(d) && !Before(d, from) && !Before(to, d)
  {
  }

  // ---------------------------------------------------------------- counting

  function Titles(ss: seq<Screening>): set<string>
  {
    set s | s in ss :: s.title
  }

  lemma {:induction false} TitlesSnoc(ss: seq<Screening>)
    requires ss != []
    ensures Titles(ss) == Titles(ss[..|ss| - 1]) + {ss[|ss| - 1].title}
  {
    var p := ss[..|ss| - 1];
    assert ss == p + [ss[|ss| - 1]];
    forall t ensures t in Titles(ss) <==> t in Titles(p) + {ss[|ss| - 1].title} {
      if t in Titles(ss) {
        var s :| s in ss && s.title == t;
        if s != ss[|ss| - 1] {
          assert s in p;
        }
      }
      if t in Titles(p) {
        var s :| s in p && s.title == t;
        assert s in ss;
      }
    }
  }

  lemma {:induction false} TitlesBound(ss: seq<Screening>)
    ensures |Titles(ss)| <= |ss|
    decreases |ss|
  {
    if ss == [] {
      assert Titles(ss) == {};
    } else {
      TitlesSnoc(ss);
      TitlesBound(ss[..|ss| - 1]);
    }
  }

  lemma TitlesEmpty(ss: seq<Screening>)
    ensures Titles(ss) == {} <==> ss == []
  {
    if ss != [] {
      var s := ss[0];
      assert s in ss && s.title in Titles(ss);
    }
  }

  /**
    `count_results` (core.py, lines 91-99): the number of distinct exact titles and the
    number of screenings. There are never more titles than screenings, and
    none only when there are no screenings.
  */
  function CountResults(ss: seq<Screening>): (counts: (nat, nat))
    ensures counts.1 == |ss| && counts.0 <= counts.1
    ensures counts.0 == 0 <==> ss == []
  {
    TitlesBound(ss);
    TitlesEmpty(ss);
    (|Titles(ss)|, |ss|)
  }

  /** Titles are compared exactly: two screenings of Dune and one of Nope are two films and three screenings. */
  lemma CountExample(a: Screening, b: Screening, c: Screening)
    requires a.title == "Dune" && b.title == "Dune" && c.title == "Nope"
    ensures CountResults([a, b, c]) == (2, 3)
  {
    var ss := [a, b, c];
    assert Titles(ss) == {"Dune", "Nope"} by {
      forall t ensures t in Titles(ss) <==> t == "Dune" || t == "Nope" {
        if t == "Dune" {
          assert a in ss;
        }
        if t == "Nope" {
          assert c in ss;
        }
      }
    }
    assert "Dune" != "Nope";
  }
}
