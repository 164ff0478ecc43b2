/** The promise of `--write`: it changes only marker values, and a second run changes no byte. */
module FigureFixpoint {
  import opened Wrappers
  import opened FigureMarkers
  import opened FigureScan
  import opened FigureRewrite
  import opened FigureTaken
  import opened RenderFigures

  // ----- one file -----

  /** Every marker renders. */
  ghost predicate AllRender(rel: string, ms: seq<Marker>, reader: string -> Reading) {
    NoZeroFloor(ms) && forall i :: 0 <= i < |ms| ==> Judge(rel, ms[i], reader).Rendered?
  }

  ghost function Renderings(rel: string, ms: seq<Marker>, reader: string -> Reading): seq<string>
    requires AllRender(rel, ms, reader)
  {
    seq(|ms|, i requires 0 <= i < |ms| => Judge(rel, ms[i], reader).text)
  }

  lemma {:induction false} RenderingsTail(rel: string, ms: seq<Marker>, reader: string -> Reading)
    requires AllRender(rel, ms, reader) && ms != []
    ensures AllRender(rel, ms[1..], reader)
    ensures Renderings(rel, ms, reader)[1..] == Renderings(rel, ms[1..], reader)
    ensures Renderings(rel, ms, reader)[0] == Judge(rel, ms[0], reader).text
    ensures ValueSpans(ms)[1..] == ValueSpans(ms[1..]) && ValueSpans(ms)[0] == Span(ms[0].valueStart, ms[0].valueEnd)
    ensures Values(ms)[1..] == Values(ms[1..]) && Values(ms)[0] == ms[0].value
  {
    hide Judge;
  }

  /** A pass without problems is the rewrite with the renderings; nothing is stale exactly when
      they are the stored values. */
  lemma {:induction false} PassRewrites(rel: string, text: string, last: nat, ms: seq<Marker>,
      reader: string -> Reading)
    requires NoZeroFloor(ms)
    requires PassFrom(rel, text, last, ms, reader).Some? && PassFrom(rel, text, last, ms, reader).value.problems == []
    ensures AllRender(rel, ms, reader)
    ensures PassFrom(rel, text, last, ms, reader).value.text ==
      Weave(text, last, ValueSpans(ms), Renderings(rel, ms, reader))
    decreases |ms|
  {
    hide Judge, Slice;
    if ms != [] {
      NoZeroTail(ms);
      assert Judge(rel, ms[0], reader).Rendered?;
      PassRewrites(rel, text, ms[0].valueEnd, ms[1..], reader);
      assert AllRender(rel, ms, reader) by {
        assert forall i :: 0 < i < |ms| ==> ms[i] == ms[1..][i - 1];
      }
      RenderingsTail(rel, ms, reader);
    }
  }

  lemma {:induction false} PassFresh(rel: string, text: string, last: nat, ms: seq<Marker>, reader: string -> Reading)
    requires AllRender(rel, ms, reader) && Renderings(rel, ms, reader) == Values(ms)
    ensures PassFrom(rel, text, last, ms, reader) ==
      Some(FilePass([], [], Weave(text, last, ValueSpans(ms), Values(ms))))
    decreases |ms|
  {
    hide Judge, Slice;
    if ms != [] {
      RenderingsTail(rel, ms, reader);
      assert Judge(rel, ms[0], reader) == Rendered(ms[0].value);
      PassFresh(rel, text, ms[0].valueEnd, ms[1..], reader);
      var p := PassFrom(rel, text, ms[0].valueEnd, ms[1..], reader).value;
      assert [] + p.stale == p.stale;
      assert PassFrom(rel, text, last, ms, reader)
          == Some(FilePass([], [], Slice(text, last, ms[0].valueStart) + ms[0].value + p.text));
    } else {
      assert ValueSpans(ms) == [] && Values(ms) == [];
    }
  }

  lemma {:induction false} SameRenderings(rel: string, ms: seq<Marker>, ms': seq<Marker>, reader: string -> Reading)
    requires AllRender(rel, ms, reader) && Holding(ms, ms', Renderings(rel, ms, reader))
    ensures AllRender(rel, ms', reader) && Renderings(rel, ms', reader) == Renderings(rel, ms, reader) == Values(ms')
  {
    hide Render;
    var r := Renderings(rel, ms, reader);
    forall i | 0 <= i < |ms'| ensures ms'[i].floor != Some(0) && Judge(rel, ms'[i], reader) == Rendered(r[i]) &&
      ms'[i].value == r[i] {
      assert Judge(rel, ms[i], reader) == Rendered(r[i]);
    }
  }

  lemma {:induction false} RenderingsClean(rel: string, ms: seq<Marker>, reader: string -> Reading)
    requires AllRender(rel, ms, reader) && TidyReader(reader)
    ensures forall i :: 0 <= i < |ms| ==> Clean(Renderings(rel, ms, reader)[i])
  {
    hide Render, Clean;
    forall i | 0 <= i < |ms| ensures Clean(Renderings(rel, ms, reader)[i]) {
      assert Judge(rel, ms[i], reader).Rendered?;
      RenderClean(reader, ms[i].name, ms[i].floor);
    }
  }

  ghost function Result(raw: string, rel: string, r: Report): string {
    if rel in r.rewrites then r.rewrites[rel] else raw
  }

  lemma {:induction false} CheckFileParts(rel: string, raw: string, reader: string -> Reading)
    requires CheckFile(rel, raw, reader).Some? && CheckFile(rel, raw, reader).value.problems == []
    ensures var text := ReadText(raw); var ms := FindMarkers(text).markers;
      && Sound(text) && AllRender(rel, ms, reader) && CheckFile(rel, raw, reader).value.total == |ms|
      && CheckFile(rel, raw, reader).value.rewrites ==
         var t := Weave(text, 0, ValueSpans(ms), Renderings(rel, ms, reader));
           if t != text then map[rel := t] else map[]
  {
    hide FindMarkers, PassFrom, Weave, ReadText, AllRender;
    var text := ReadText(raw);
    var f := FindMarkers(text);
    FloorsPositive(text);
    assert Structurals(rel, f.problems) == [] && f.problems == [];
    PassRewrites(rel, text, 0, f.markers, reader);
  }

  /** The text a second run reads back from the result. */
  lemma {:induction false} ReadBack(rel: string, raw: string, reader: string -> Reading)
    requires CheckFile(rel, raw, reader).Some? && CheckFile(rel, raw, reader).value.problems == []
    requires TidyReader(reader)
    ensures var text := ReadText(raw); var ms := FindMarkers(text).markers;
      AllRender(rel, ms, reader)
      && ReadText(Result(raw, rel, CheckFile(rel, raw, reader).value)) ==
        Weave(text, 0, ValueSpans(ms), Renderings(rel, ms, reader))
  {
    hide FindMarkers, Weave, ReadText, AllRender, CheckFile, TidyReader;
    var text := ReadText(raw);
    var ms := FindMarkers(text).markers;
    CheckFileParts(rel, raw, reader);
    RenderingsClean(rel, ms, reader);
    var fills := Renderings(rel, ms, reader);
    ReadTextExact(raw);
    CleanNoReturn(fills);
    WeaveNoReturn(text, 0, ValueSpans(ms), fills);
    ReadTextExact(Weave(text, 0, ValueSpans(ms), fills));
  }

  lemma {:induction false} WeaveNoReturn(text: string, last: nat, spans: seq<Span>, fills: seq<string>)
    requires |spans| == |fills| && '\r' !in text && forall i :: 0 <= i < |fills| ==> '\r' !in fills[i]
    ensures '\r' !in Weave(text, last, spans, fills)
    decreases |spans|
  {
    if spans != [] {
      WeaveNoReturn(text, spans[0].to, spans[1..], fills[1..]);
    }
  }

  lemma {:induction false} CleanNoReturn(fills: seq<string>)
    requires forall i :: 0 <= i < |fills| ==> Clean(fills[i])
    ensures forall i :: 0 <= i < |fills| ==> '\r' !in fills[i]
  {
  }

  /** After a pass without problems, a file whose comments keep their inline code without the values is
      settled: checking the result finds the same figures, nothing stale, and writes nothing. */
  lemma {:induction false} FileFixpoint(rel: string, raw: string, reader: string -> Reading)
    requires CheckFile(rel, raw, reader).Some? && CheckFile(rel, raw, reader).value.problems == []
    requires TidyReader(reader) && SameCode(ReadText(raw))
    ensures Settled(rel, raw, reader)
  {
    hide FindMarkers, Weave, ReadText, AllRender, TidyReader, Sound, SameOutside, Result, Holding, SameCode;
    CheckFileParts(rel, raw, reader);
    ReadBack(rel, raw, reader);
    var text := ReadText(raw);
    var ms := FindMarkers(text).markers;
    var fills := Renderings(rel, ms, reader);
    RenderingsClean(rel, ms, reader);
    RescansIff(text, fills);
    var text' := Weave(text, 0, ValueSpans(ms), fills);
    var ms' := FindMarkers(text').markers;
    SameRenderings(rel, ms, ms', reader);
    RewriteIdentity(text');
    PassFresh(rel, text', 0, ms', reader);
    assert FindMarkers(text').problems == [] by { SoundProblems(text'); }
    HoldingSize(ms, ms', fills);
    HoldingNames(ms, ms', fills);
    FloorsPositive(text');
    FreshFile(rel, Result(raw, rel, CheckFile(rel, raw, reader).value), text', reader);
  }

  ghost predicate SameFigures(ms: seq<Marker>, ms': seq<Marker>) {
    |ms'| == |ms| && forall j :: 0 <= j < |ms| ==> SameComments(ms[j], ms'[j])
  }

  /** Two file contents, read as text, hold the same figures in the same places and are the same
      everywhere else. */
  ghost predicate OnlyValuesDiffer(raw: string, raw': string) {
    var text, text' := ReadText(raw), ReadText(raw');
    var ms, ms' := FindMarkers(text).markers, FindMarkers(text').markers;
    SameFigures(ms, ms') && SameOutside(text, ms, text', ms')
  }

  lemma {:induction false} HoldingNames(ms: seq<Marker>, ms': seq<Marker>, fills: seq<string>)
    requires |fills| == |ms| && Holding(ms, ms', fills)
    ensures SameFigures(ms, ms')
  {
  }

  /** Checking the file as the run leaves it reports no problem, nothing stale and nothing to write, and
      finds the same figures in the same places. */
  ghost predicate Settled(rel: string, raw: string, reader: string -> Reading)
    requires CheckFile(rel, raw, reader).Some?
  {
    var r := CheckFile(rel, raw, reader).value;
    var raw' := Result(raw, rel, r);
    CheckFile(rel, raw', reader) == Some(Report([], [], r.total, map[])) && OnlyValuesDiffer(raw, raw')
  }

  /** A pass with nothing to say found every stored value up to date. */
  lemma {:induction false} QuietPass(rel: string, text: string, last: nat, ms: seq<Marker>, reader: string -> Reading)
    requires NoZeroFloor(ms)
    requires PassFrom(rel, text, last, ms, reader).Some?
    requires PassFrom(rel, text, last, ms, reader).value.problems == [] &&
      PassFrom(rel, text, last, ms, reader).value.stale == []
    ensures forall i :: 0 <= i < |ms| ==> Judge(rel, ms[i], reader) == Rendered(ms[i].value)
    decreases |ms|
  {
    hide Judge, Slice;
    if ms != [] {
      NoZeroTail(ms);
      assert Judge(rel, ms[0], reader).Rendered?;
      QuietPass(rel, text, ms[0].valueEnd, ms[1..], reader);
      assert forall i :: 0 < i < |ms| ==> ms[i] == ms[1..][i - 1];
    }
  }

  lemma {:induction false} QuietHolds(rel: string, ms: seq<Marker>, ms': seq<Marker>, reader: string -> Reading)
    requires AllRender(rel, ms, reader) && SameFigures(ms, ms') && NoZeroFloor(ms')
    requires forall i :: 0 <= i < |ms'| ==> Judge(rel, ms'[i], reader) == Rendered(ms'[i].value)
    ensures Holding(ms, ms', Renderings(rel, ms, reader))
  {
    hide Render;
    forall i | 0 <= i < |ms| ensures ms'[i].value == Renderings(rel, ms, reader)[i] {
      assert Judge(rel, ms[i], reader).Rendered? && Judge(rel, ms'[i], reader) == Rendered(ms'[i].value);
    }
  }

  lemma {:induction false} QuietCheck(rel: string, raw: string, reader: string -> Reading)
    requires CheckFile(rel, raw, reader).Some?
    requires CheckFile(rel, raw, reader).value.problems == [] && CheckFile(rel, raw, reader).value.stale == []
    ensures var ms := FindMarkers(ReadText(raw)).markers;
      Sound(ReadText(raw)) && NoZeroFloor(ms) && forall i :: 0 <= i < |ms| ==>
        Judge(rel, ms[i], reader) == Rendered(ms[i].value)
  {
    hide FindMarkers, PassFrom, ReadText, Judge;
    var text := ReadText(raw);
    var f := FindMarkers(text);
    FloorsPositive(text);
    assert Structurals(rel, f.problems) == [] && f.problems == [];
    QuietPass(rel, text, 0, f.markers, reader);
  }

  /** After a pass without problems a file is settled exactly when every marker comment outside the values
      is in inline code, by the backticks of its line, both with and without them or neither time. */
  lemma {:induction false} SettledIff(rel: string, raw: string, reader: string -> Reading)
    requires CheckFile(rel, raw, reader).Some? && CheckFile(rel, raw, reader).value.problems == []
    requires TidyReader(reader)
    ensures Settled(rel, raw, reader) <==> SameCode(ReadText(raw))
  {
    hide SameCode, Settled, CheckFile, TidyReader, ReadText;
    if SameCode(ReadText(raw)) {
      FileFixpoint(rel, raw, reader);
    }
    if Settled(rel, raw, reader) {
      SettledQuiet(rel, raw, reader);
      QuietSameCode(rel, raw, reader);
    }
  }

  lemma {:induction false} SettledQuiet(rel: string, raw: string, reader: string -> Reading)
    requires CheckFile(rel, raw, reader).Some? && Settled(rel, raw, reader)
    ensures var raw' := Result(raw, rel, CheckFile(rel, raw, reader).value);
      OnlyValuesDiffer(raw, raw') && CheckFile(rel, raw', reader).Some? &&
      CheckFile(rel, raw', reader).value.problems == [] && CheckFile(rel, raw', reader).value.stale == []
  {
    hide OnlyValuesDiffer, CheckFile;
  }

  /** A file that checks clean after the run, with the same figures in the same places, kept its comments. */
  lemma {:induction false} QuietSameCode(rel: string, raw: string, reader: string -> Reading)
    requires CheckFile(rel, raw, reader).Some? && CheckFile(rel, raw, reader).value.problems == []
    requires TidyReader(reader)
    requires var raw' := Result(raw, rel, CheckFile(rel, raw, reader).value);
      OnlyValuesDiffer(raw, raw') && CheckFile(rel, raw', reader).Some? &&
      CheckFile(rel, raw', reader).value.problems == [] && CheckFile(rel, raw', reader).value.stale == []
    ensures SameCode(ReadText(raw))
  {
    hide FindMarkers, Weave, ReadText, AllRender, TidyReader, Sound, SameOutside, Result, Holding, CheckFile,
      SameFigures,
      NoZeroFloor, SameCode;
    CheckFileParts(rel, raw, reader);
    ReadBack(rel, raw, reader);
    var text := ReadText(raw);
    var ms := FindMarkers(text).markers;
    var fills := Renderings(rel, ms, reader);
    RenderingsClean(rel, ms, reader);
    var raw' := Result(raw, rel, CheckFile(rel, raw, reader).value);
    QuietCheck(rel, raw', reader);
    QuietHolds(rel, ms, FindMarkers(ReadText(raw')).markers, reader);
    RescansIff(text, fills);
  }

  lemma {:induction false} SoundProblems(text: string)
    requires Sound(text)
    ensures FindMarkers(text).problems == []
  {
    hide FindMarkers;
  }

  lemma {:induction false} FreshFile(rel: string, raw: string, text: string, reader: string -> Reading)
    requires text == ReadText(raw) && FindMarkers(text).problems == [] && NoZeroFloor(FindMarkers(text).markers)
    requires PassFrom(rel, text, 0, FindMarkers(text).markers, reader) == Some(FilePass([], [], text))
    ensures CheckFile(rel, raw, reader) == Some(Report([], [], |FindMarkers(text).markers|, map[]))
  {
    hide FindMarkers, PassFrom, ReadText, NoZeroFloor;
    assert Structurals(rel, []) + [] == [];
  }

  // ----- the whole run -----

  lemma {:induction false} RewriteKeys(claims: seq<string>, files: map<string, string>, reader: string -> Reading)
    requires AllPresent(claims, files) && Check(claims, files, reader).Some?
    ensures forall rel :: rel in Check(claims, files, reader).value.rewrites ==> rel in claims
  {
    if claims != [] {
      RewriteKeys(claims[1..], files, reader);
      hide FindMarkers, PassFrom, ReadText;
      assert forall rel :: rel in claims[1..] ==> rel in claims;
      assert claims[0] in claims;
    }
  }

  lemma {:induction false} LookUp(files: map<string, string>, a: map<string, string>, b: map<string, string>,
      rel: string)
    requires rel in files
    ensures rel !in a ==> (files + (a + b))[rel] == (files + b)[rel]
    ensures rel !in b ==> (files + (a + b))[rel] == (files + a)[rel]
  {
  }

  /** A report without problems is made of the files' own reports. */
  lemma {:induction false} CheckParts(claims: seq<string>, files: map<string, string>, reader: string -> Reading,
      i: nat)
    requires AllPresent(claims, files) && Distinct(claims) && i < |claims|
    requires Check(claims, files, reader).Some? && Check(claims, files, reader).value.problems == []
    ensures var r := CheckFile(claims[i], files[claims[i]], reader);
      r.Some? && r.value.problems == []
      && (files + Check(claims, files, reader).value.rewrites)[claims[i]] ==
        Result(files[claims[i]], claims[i], r.value)
    decreases |claims|
  {
    hide CheckFile, Check;
    CheckStep(claims, files, reader);
    RewriteKeys(claims[1..], files, reader);
    OwnKeys(claims[0], files[claims[0]], reader);
    var a, b := CheckFile(claims[0], files[claims[0]], reader).value, Check(claims[1..], files, reader).value;
    assert a.problems == [] && b.problems == [];
    LookUp(files, a.rewrites, b.rewrites, claims[i]);
    if i > 0 {
      DistinctTail(claims);
      assert claims[i] == claims[1..][i - 1];
      CheckParts(claims[1..], files, reader, i - 1);
    } else {
      DistinctTail(claims);
    }
  }

  lemma {:induction false} DistinctTail(claims: seq<string>)
    requires Distinct(claims) && claims != []
    ensures Distinct(claims[1..]) && claims[0] !in claims[1..]
    ensures forall i :: 0 < i < |claims| ==> claims[i] != claims[0]
  {
  }

  lemma {:induction false} OwnKeys(rel: string, raw: string, reader: string -> Reading)
    requires CheckFile(rel, raw, reader).Some?
    ensures forall k :: k in CheckFile(rel, raw, reader).value.rewrites ==> k == rel
  {
    hide FindMarkers, PassFrom, ReadText;
  }

  lemma {:induction false} CheckStep(claims: seq<string>, files: map<string, string>, reader: string -> Reading)
    requires AllPresent(claims, files) && claims != [] && Check(claims, files, reader).Some?
    ensures AllPresent(claims[1..], files) && Check(claims[1..], files, reader).Some?
    ensures CheckFile(claims[0], files[claims[0]], reader).Some?
    ensures Check(claims, files, reader).value
         == Combine(CheckFile(claims[0], files[claims[0]], reader).value, Check(claims[1..], files, reader).value)
  {
    hide CheckFile;
  }

  lemma {:induction false} CheckOne(claims: seq<string>, files: map<string, string>, reader: string -> Reading)
    requires AllPresent(claims, files) && claims != []
    requires CheckFile(claims[0], files[claims[0]], reader).Some? && Check(claims[1..], files, reader).Some?
    ensures Check(claims, files, reader)
         == Some(Combine(CheckFile(claims[0], files[claims[0]], reader).value, Check(claims[1..], files, reader).value))
  {
    hide CheckFile;
  }

  /** Files that are all fresh give a report that only counts. */
  lemma {:induction false} CheckFresh(claims: seq<string>, files: map<string, string>, files': map<string, string>,
      reader: string -> Reading)
    requires AllPresent(claims, files) && AllPresent(claims, files') && Check(claims, files, reader).Some?
    requires forall i :: 0 <= i < |claims| ==>
      CheckFile(claims[i], files[claims[i]], reader).Some?
      && CheckFile(claims[i], files'[claims[i]], reader)
         == Some(Report([], [], CheckFile(claims[i], files[claims[i]], reader).value.total, map[]))
    ensures Check(claims, files', reader) == Some(Report([], [], Check(claims, files, reader).value.total, map[]))
    decreases |claims|
  {
    hide CheckFile, Combine;
    if claims != [] {
      hide Check;
      CheckStep(claims, files, reader);
      assert forall i :: 0 <= i < |claims| - 1 ==> claims[1..][i] == claims[i + 1];
      CheckFresh(claims[1..], files, files', reader);
      CheckOne(claims, files', reader);
      CombineFresh(CheckFile(claims[0], files[claims[0]], reader).value, Check(claims[1..], files, reader).value);
    }
  }

  lemma {:induction false} CombineFresh(a: Report, b: Report)
    ensures Combine(Report([], [], a.total, map[]), Report([], [], b.total, map[])) ==
      Report([], [], Combine(a, b).total, map[])
  {
  }

  lemma {:induction false} RunIsCheck(claims: seq<string>, files: map<string, string>, reader: string -> Reading)
    requires RunOutcome(claims, files, reader, true).Finished? && RunOutcome(claims, files, reader, true).problems == []
    ensures AllPresent(claims, files) && Check(claims, files, reader).Some?
    ensures Check(claims, files, reader).value.problems == []
    ensures RunFiles(claims, files, reader, true) == files + Check(claims, files, reader).value.rewrites
  {
    hide Check, AllPresent;
  }

  lemma {:induction false} EachSettled(claims: seq<string>, files: map<string, string>, reader: string -> Reading)
    requires Distinct(claims) && TidyReader(reader) && AllPresent(claims, files)
    requires forall i :: 0 <= i < |claims| ==> SameCode(ReadText(files[claims[i]]))
    requires Check(claims, files, reader).Some? && Check(claims, files, reader).value.problems == []
    ensures var files' := files + Check(claims, files, reader).value.rewrites;
      forall i :: 0 <= i < |claims| ==>
        OnlyValuesDiffer(files[claims[i]], files'[claims[i]]) && CheckFile(claims[i], files[claims[i]], reader).Some? &&
        CheckFile(claims[i], files'[claims[i]], reader)
          == Some(Report([], [], CheckFile(claims[i], files[claims[i]], reader).value.total, map[]))
  {
    hide OnlyValuesDiffer, CheckFile, Check, SameCode, ReadText, TidyReader;
    forall i | 0 <= i < |claims|
      ensures var files' := files + Check(claims, files, reader).value.rewrites;
        OnlyValuesDiffer(files[claims[i]], files'[claims[i]]) && CheckFile(claims[i], files[claims[i]], reader).Some? &&
        CheckFile(claims[i], files'[claims[i]], reader)
          == Some(Report([], [], CheckFile(claims[i], files[claims[i]], reader).value.total, map[]))
    {
      CheckParts(claims, files, reader, i);
      FileFixpoint(claims[i], files[claims[i]], reader);
    }
  }

  /** A `--write` run that reports no problem is a fixed point: the next run, writing or not,
      reports no problem and nothing stale, counts the same markers, writes no file and leaves
      every byte. */
  lemma {:induction false} SecondRunChangesNothing(claims: seq<string>, files: map<string, string>,
      reader: string -> Reading, write: bool)
    requires Distinct(claims) && TidyReader(reader)
    requires forall i :: 0 <= i < |claims| && claims[i] in files ==> SameCode(ReadText(files[claims[i]]))
    requires RunOutcome(claims, files, reader, true).Finished? && RunOutcome(claims, files, reader, true).problems == []
    ensures var files' := RunFiles(claims, files, reader, true);
      && RunOutcome(claims, files', reader, write) == Finished([], [], RunOutcome(claims, files, reader, true).total, 0)
      && RunFiles(claims, files', reader, write) == files'
  {
    hide OnlyValuesDiffer, CheckFile, Check, SameCode, FindMarkers, ReadText, TidyReader;
    RunIsCheck(claims, files, reader);
    var files' := files + Check(claims, files, reader).value.rewrites;
    EachSettled(claims, files, reader);
    CheckFresh(claims, files, files', reader);
  }

  /** Each claim file then holds the same figures in the same places, and is otherwise the same text. */
  lemma {:induction false} SameFiguresAfter(claims: seq<string>, files: map<string, string>, reader: string -> Reading)
    requires Distinct(claims) && TidyReader(reader)
    requires forall i :: 0 <= i < |claims| && claims[i] in files ==> SameCode(ReadText(files[claims[i]]))
    requires RunOutcome(claims, files, reader, true).Finished? && RunOutcome(claims, files, reader, true).problems == []
    ensures var files' := RunFiles(claims, files, reader, true);
      forall i :: 0 <= i < |claims| ==>
        claims[i] in files && claims[i] in files' && OnlyValuesDiffer(files[claims[i]], files'[claims[i]])
  {
    hide OnlyValuesDiffer, CheckFile, Check, SameCode, FindMarkers, ReadText, TidyReader, RunFiles, RunOutcome;
    RunIsCheck(claims, files, reader);
    EachSettled(claims, files, reader);
  }

  lemma {:induction false} QuietParts(claims: seq<string>, files: map<string, string>, reader: string -> Reading,
      i: nat)
    requires AllPresent(claims, files) && i < |claims| && Check(claims, files, reader).Some?
    requires Check(claims, files, reader).value.problems == [] && Check(claims, files, reader).value.stale == []
    ensures var r := CheckFile(claims[i], files[claims[i]], reader);
      r.Some? && r.value.problems == [] && r.value.stale == []
    decreases |claims|
  {
    hide CheckFile, Check;
    CheckStep(claims, files, reader);
    if i > 0 {
      assert claims[i] == claims[1..][i - 1];
      QuietParts(claims[1..], files, reader, i - 1);
    }
  }

  lemma {:induction false} QuietRun(claims: seq<string>, files: map<string, string>, reader: string -> Reading,
      write: bool)
    requires RunOutcome(claims, files, reader, write).Finished?
    requires RunOutcome(claims, files, reader, write).problems == [] &&
      RunOutcome(claims, files, reader, write).stale == []
    ensures AllPresent(claims, files) && Check(claims, files, reader).Some?
    ensures Check(claims, files, reader).value.problems == [] && Check(claims, files, reader).value.stale == []
  {
    hide Check, AllPresent;
  }

  /** After a `--write` run without problems, the next run finds nothing to report or write and the same
      figures in the same places of every claim file, exactly when the marker comments of every claim file
      keep their inline code. */
  lemma {:induction false} RunSettlesIff(claims: seq<string>, files: map<string, string>, reader: string -> Reading,
      write: bool)
    requires Distinct(claims) && TidyReader(reader) && AllPresent(claims, files)
    requires RunOutcome(claims, files, reader, true).Finished? && RunOutcome(claims, files, reader, true).problems == []
    ensures var files' := RunFiles(claims, files, reader, true);
      (RunOutcome(claims, files', reader, write) == Finished([], [], RunOutcome(claims, files, reader, true).total, 0)
        && AllPresent(claims, files')
        && forall i :: 0 <= i < |claims| ==> OnlyValuesDiffer(files[claims[i]], files'[claims[i]]))
      <==> forall i :: 0 <= i < |claims| ==> SameCode(ReadText(files[claims[i]]))
  {
    hide OnlyValuesDiffer, CheckFile, Check, SameCode, FindMarkers, ReadText, TidyReader, RunFiles, RunOutcome;
    var files' := RunFiles(claims, files, reader, true);
    if forall i :: 0 <= i < |claims| ==> SameCode(ReadText(files[claims[i]])) {
      SecondRunChangesNothing(claims, files, reader, write);
      SameFiguresAfter(claims, files, reader);
    }
    if RunOutcome(claims, files', reader, write) == Finished([], [], RunOutcome(claims, files, reader, true).total, 0)
      && AllPresent(claims, files')
      && forall i :: 0 <= i < |claims| ==> OnlyValuesDiffer(files[claims[i]], files'[claims[i]])
    {
      QuietRun(claims, files', reader, write);
      RunIsCheck(claims, files, reader);
      forall i | 0 <= i < |claims| ensures SameCode(ReadText(files[claims[i]])) {
        CheckParts(claims, files, reader, i);
        QuietParts(claims, files', reader, i);
        QuietSameCode(claims[i], files[claims[i]], reader);
      }
    }
  }

  /** What is written is the text read with other values, or the file is left alone. */
  ghost predicate OnlyValuesWritten(raw: string, raw': string) {
    var text := ReadText(raw);
    var ms := FindMarkers(text).markers;
    raw' == raw || exists fills :: |fills| == |ms| && raw' == Weave(text, 0, ValueSpans(ms), fills)
  }

  lemma {:induction false} FileWritten(rel: string, raw: string, reader: string -> Reading)
    requires CheckFile(rel, raw, reader).Some? && CheckFile(rel, raw, reader).value.problems == []
    ensures OnlyValuesWritten(raw, Result(raw, rel, CheckFile(rel, raw, reader).value))
  {
    hide FindMarkers, Weave, ReadText, AllRender, CheckFile, Sound;
    CheckFileParts(rel, raw, reader);
    var ms := FindMarkers(ReadText(raw)).markers;
    var fills := Renderings(rel, ms, reader);
    assert |fills| == |ms|;
  }

  /** Whatever the files hold, a `--write` run without problems writes nothing but claim files, and in
      each of them the text read with other values. */
  lemma {:induction false} RunTouchesOnlyValues(claims: seq<string>, files: map<string, string>,
      reader: string -> Reading)
    requires Distinct(claims)
    requires RunOutcome(claims, files, reader, true).Finished? && RunOutcome(claims, files, reader, true).problems == []
    ensures var files' := RunFiles(claims, files, reader, true);
      files'.Keys == files.Keys && (forall rel :: rel in files && rel !in claims ==> files'[rel] == files[rel])
      && forall i :: 0 <= i < |claims| ==> OnlyValuesWritten(files[claims[i]], files'[claims[i]])
  {
    hide OnlyValuesWritten, CheckFile, Check, FindMarkers, ReadText, RunFiles, RunOutcome;
    RunIsCheck(claims, files, reader);
    RewriteKeys(claims, files, reader);
    forall i | 0 <= i < |claims|
      ensures OnlyValuesWritten(files[claims[i]], (files + Check(claims, files, reader).value.rewrites)[claims[i]])
    {
      CheckParts(claims, files, reader, i);
      FileWritten(claims[i], files[claims[i]], reader);
    }
  }

  // ----- values on one line -----

  lemma {:induction false} OneLineSameCode(text: string)
    requires Sound(text) && ValuesOnOneLine(FindMarkers(text).markers)
    ensures SameCode(text)
  {
    hide Sound, FindMarkers, ValuesOnOneLine, SameCode, EmptiesWell;
    OneLineEmptiesWell(text);
    EmptiesWellIff(text);
  }

  /** With newlines as the only line boundaries in stored values, the promise always holds. */
  lemma {:induction false} SecondRunOnOneLine(claims: seq<string>, files: map<string, string>,
      reader: string -> Reading, write: bool)
    requires Distinct(claims) && TidyReader(reader)
    requires forall i :: 0 <= i < |claims| && claims[i] in files ==>
      ValuesOnOneLine(FindMarkers(ReadText(files[claims[i]])).markers)
    requires RunOutcome(claims, files, reader, true).Finished? && RunOutcome(claims, files, reader, true).problems == []
    ensures var files' := RunFiles(claims, files, reader, true);
      && RunOutcome(claims, files', reader, write) == Finished([], [], RunOutcome(claims, files, reader, true).total, 0)
      && RunFiles(claims, files', reader, write) == files'
  {
    hide CheckFile, Check, FindMarkers, ReadText, TidyReader, RunFiles, RunOutcome, ValuesOnOneLine, SameCode, Sound;
    RunIsCheck(claims, files, reader);
    forall i | 0 <= i < |claims| ensures SameCode(ReadText(files[claims[i]])) {
      CheckParts(claims, files, reader, i);
      CheckFileParts(claims[i], files[claims[i]], reader);
      OneLineSameCode(ReadText(files[claims[i]]));
    }
    SecondRunChangesNothing(claims, files, reader, write);
  }
}
