/** What the figures say after a run, what a run reports, and what it writes, in terms of the sources. */
module FigureTruth {
  import opened Decimal
  import opened Wrappers
  import opened FigureMarkers
  import opened FigureRewrite
  import opened RenderFigures
  import opened FigureTaken
  import opened FigureFixpoint

  // ----- what a value says -----

  /** A count with its thousands separated: the digits of `n` without a leading zero, a comma before every third
      from the right. */
  ghost predicate WrittenCount(text: string, n: nat) {
    && text != "" && text[0] != ',' && (n > 0 ==> text[0] != '0')
    && (forall i :: 0 <= i < |text| ==> (text[i] == ',' <==> (|text| - i) % 4 == 0))
    && AllDigits(DropCommas(text)) && ParseNat(DropCommas(text)) == n
  }

  /** The text says what the source says: a text as it is; a count exactly, behind a minus sign when it is negative;
      under a floor, the greatest multiple of the floor that is not above the count, and a plus sign. */
  ghost predicate SaysValue(text: string, floor: Option<nat>, reading: Reading) {
    match reading
    case Known(Text(s)) => floor.None? && text == s
    case Known(Count(n)) =>
      (match floor
       case None =>
         (n >= 0 ==> WrittenCount(text, n)) &&
         (n < 0 ==> text != "" && text[0] == '-' && WrittenCount(text[1..], -n))
       case Some(k) =>
         k > 0 && exists shown: nat ::
           shown % k == 0 && n - k < shown <= n && text != "" && text[|text| - 1] == '+' &&
           WrittenCount(text[..|text| - 1], shown))
    case _ => false
  }

  lemma {:induction false} GroupedSays(n: nat)
    ensures WrittenCount(Grouped(n), n)
  {
    GroupedCommas(n);
    GroupedParse(n);
    hide Grouped, DropCommas;
  }

  /** What is rendered says what the source says. */
  lemma {:induction false} RenderSays(value: Value, floor: Option<nat>)
    requires floor != Some(0) && Render(value, floor).Ok?
    ensures SaysValue(Render(value, floor).value, floor, Known(value))
  {
    hide WrittenCount, Grouped;
    match value
    case Count(n) =>
      if floor.None? {
        GroupedSays(if n >= 0 then n else -n);
        if n < 0 { assert ("-" + Grouped(-n))[1..] == Grouped(-n); }
      } else {
        var k := floor.value;
        FloorFacts(n, k);
        var shown: nat := n / k * k;
        GroupedSays(shown);
        var text := Grouped(shown) + "+";
        assert text[..|text| - 1] == Grouped(shown);
        assert shown % k == 0 && n - k < shown <= n;
      }
    case _ =>
  }

  lemma {:induction false} JudgeSays(rel: string, m: Marker, reader: string -> Reading)
    requires m.floor != Some(0) && Judge(rel, m, reader).Rendered?
    ensures SaysValue(Judge(rel, m, reader).text, m.floor, reader(m.name))
  {
    hide Render, SaysValue;
    RenderSays(reader(m.name).value, m.floor);
  }

  /** When a run has nothing to report, every figure of every claim file says what its source says. */
  lemma {:induction false} QuietRunIsTrue(claims: seq<string>, files: map<string, string>, reader: string -> Reading,
      write: bool, i: nat, j: nat)
    requires RunOutcome(claims, files, reader, write).Finished?
    requires RunOutcome(claims, files, reader, write).problems == [] &&
      RunOutcome(claims, files, reader, write).stale == []
    requires i < |claims| && claims[i] in files && j < |FindMarkers(ReadText(files[claims[i]])).markers|
    ensures var m := FindMarkers(ReadText(files[claims[i]])).markers[j]; SaysValue(m.value, m.floor, reader(m.name))
  {
    hide Check, CheckFile, FindMarkers, ReadText, Judge, SaysValue, RunOutcome;
    QuietRun(claims, files, reader, write);
    QuietParts(claims, files, reader, i);
    QuietCheck(claims[i], files[claims[i]], reader);
    var m := FindMarkers(ReadText(files[claims[i]])).markers[j];
    assert Judge(claims[i], m, reader) == Rendered(m.value);
    JudgeSays(claims[i], m, reader);
  }

  /** After a `--write` run without problems, where the comments keep their inline code, every figure of every claim
      file says what its source says. */
  lemma {:induction false} WrittenRunIsTrue(claims: seq<string>, files: map<string, string>,
      reader: string -> Reading, i: nat, j: nat)
    requires Distinct(claims) && TidyReader(reader)
    requires forall i :: 0 <= i < |claims| && claims[i] in files ==> SameCode(ReadText(files[claims[i]]))
    requires RunOutcome(claims, files, reader, true).Finished? && RunOutcome(claims, files, reader, true).problems == []
    requires var files' := RunFiles(claims, files, reader, true);
      i < |claims| && claims[i] in files' && j < |FindMarkers(ReadText(files'[claims[i]])).markers|
    ensures var m := FindMarkers(ReadText(RunFiles(claims, files, reader, true)[claims[i]])).markers[j];
      SaysValue(m.value, m.floor, reader(m.name))
  {
    hide FindMarkers, ReadText, SaysValue, RunOutcome, RunFiles, SameCode, TidyReader;
    SecondRunChangesNothing(claims, files, reader, false);
    QuietRunIsTrue(claims, RunFiles(claims, files, reader, true), reader, false, i, j);
  }

  /** And whatever the comments: what is written into the place of each value says what the source says. */
  lemma {:induction false} WrittenValues(rel: string, raw: string, reader: string -> Reading)
    returns (fills: seq<string>)
    requires CheckFile(rel, raw, reader).Some? && CheckFile(rel, raw, reader).value.problems == []
    ensures var text := ReadText(raw); var ms := FindMarkers(text).markers;
      |fills| == |ms| && (forall j :: 0 <= j < |ms| ==> SaysValue(fills[j], ms[j].floor, reader(ms[j].name))) &&
      var text' := Weave(text, 0, ValueSpans(ms), fills);
        FigureFixpoint.Result(raw, rel, CheckFile(rel, raw, reader).value) == if text' != text then text' else raw
  {
    hide FindMarkers, Weave, ReadText, CheckFile, Sound, SaysValue, Judge;
    CheckFileParts(rel, raw, reader);
    var ms := FindMarkers(ReadText(raw)).markers;
    fills := Renderings(rel, ms, reader);
    forall j | 0 <= j < |ms| ensures SaysValue(fills[j], ms[j].floor, reader(ms[j].name)) {
      JudgeSays(rel, ms[j], reader);
    }
  }

  // ----- what a run reports -----

  /** A rendering is refused for a source that is neither count nor text, for a text under a floor, and for a count
      below its floor. */
  ghost predicate RefusedFor(value: Value, floor: Option<nat>, e: RenderError) {
    (value.Unfit? && e == BadSource) ||
    (value.Text? && floor.Some? && e == NeedsCount(floor.value)) ||
    (value.Count? && floor.Some? && value.n < floor.value && e == BelowFloor(value.n, floor.value))
  }

  lemma {:induction false} RefusedIs(value: Value, floor: Option<nat>, e: RenderError)
    requires floor != Some(0)
    ensures Render(value, floor) == Err(e) <==> RefusedFor(value, floor, e)
  {
    hide Separated;
  }

  /** The issue that one marker raises. */
  ghost predicate Raises(rel: string, m: Marker, reader: string -> Reading, issue: Issue) {
    match issue
    case UnknownFigure(r, line, name) => r == rel && line == m.line && name == m.name && reader(name) == UnknownName
    case CannotRender(r, line, name, e) =>
      r == rel && line == m.line && name == m.name && reader(name).Known? && RefusedFor(reader(name).value, m.floor, e)
    case _ => false
  }

  /** The marker's value is not what its source renders to. */
  ghost predicate OutOfDate(rel: string, m: Marker, reader: string -> Reading, s: Stale) {
    && m.floor != Some(0) && reader(m.name).Known? && Render(reader(m.name).value, m.floor) == Ok(s.rendered)
    && s.rendered != m.value && s == Stale(rel, m.line, m.name, m.value, s.rendered)
  }

  lemma {:induction false} JudgeRaises(rel: string, m: Marker, reader: string -> Reading, issue: Issue)
    requires m.floor != Some(0)
    ensures Judge(rel, m, reader) == Refused(issue) <==> Raises(rel, m, reader, issue)
  {
    hide Render, RefusedFor;
    if reader(m.name).Known? && Render(reader(m.name).value, m.floor).Err? {
      RefusedIs(reader(m.name).value, m.floor, Render(reader(m.name).value, m.floor).error);
    }
    if issue.CannotRender? && reader(m.name).Known? {
      RefusedIs(reader(m.name).value, m.floor, issue.error);
    }
  }

  lemma {:induction false} JudgeStale(rel: string, m: Marker, reader: string -> Reading, s: Stale)
    requires m.floor != Some(0)
    ensures OutOfDate(rel, m, reader, s) <==>
      Judge(rel, m, reader) == Rendered(s.rendered) && s.rendered != m.value &&
      s == Stale(rel, m.line, m.name, m.value, s.rendered)
  {
    hide Render;
  }

  /** The issues and stale markers of a pass are those of its markers; it breaks off at a source that cannot be read. */
  lemma {:induction false} PassReports(rel: string, text: string, last: nat, ms: seq<Marker>, reader: string -> Reading,
      issue: Issue, s: Stale)
    requires NoZeroFloor(ms)
    ensures var p := PassFrom(rel, text, last, ms, reader);
      && (p.None? <==> exists i :: 0 <= i < |ms| && reader(ms[i].name) == Unreadable)
      && (p.Some? ==> (issue in p.value.problems <==> exists i :: 0 <= i < |ms| && Raises(rel, ms[i], reader, issue)))
      && (p.Some? ==> (s in p.value.stale <==> exists i :: 0 <= i < |ms| && OutOfDate(rel, ms[i], reader, s)))
    decreases |ms|
  {
    hide Render, Slice, Raises, OutOfDate;
    if ms != [] {
      var m, rest := ms[0], ms[1..];
      NoZeroTail(ms);
      JudgeRaises(rel, m, reader, issue);
      JudgeStale(rel, m, reader, s);
      assert forall i :: 0 < i < |ms| ==> ms[i] == rest[i - 1];
      assert forall i :: 0 <= i < |rest| ==> rest[i] == ms[i + 1];
      PassReports(rel, text, last, rest, reader, issue, s);
      PassReports(rel, text, m.valueEnd, rest, reader, issue, s);
      JudgeAborts(rel, m, reader);
    }
  }

  lemma {:induction false} JudgeAborts(rel: string, m: Marker, reader: string -> Reading)
    requires m.floor != Some(0)
    ensures Judge(rel, m, reader) == Aborts <==> reader(m.name) == Unreadable
  {
    hide Render;
  }

  ghost predicate FileRaises(rel: string, raw: string, reader: string -> Reading, issue: Issue) {
    var f := FindMarkers(ReadText(raw));
    (issue.Structural? && issue.rel == rel && issue.problem in f.problems) ||
    exists j :: 0 <= j < |f.markers| && Raises(rel, f.markers[j], reader, issue)
  }

  ghost predicate FileStale(rel: string, raw: string, reader: string -> Reading, s: Stale) {
    var ms := FindMarkers(ReadText(raw)).markers;
    exists j :: 0 <= j < |ms| && OutOfDate(rel, ms[j], reader, s)
  }

  ghost predicate Unread(raw: string, reader: string -> Reading) {
    var ms := FindMarkers(ReadText(raw)).markers;
    exists j :: 0 <= j < |ms| && reader(ms[j].name) == Unreadable
  }

  lemma {:induction false} FileReports(rel: string, raw: string, reader: string -> Reading, issue: Issue, s: Stale)
    ensures var r := CheckFile(rel, raw, reader);
      && (r.None? <==> Unread(raw, reader))
      && (r.Some? ==> (issue in r.value.problems <==> FileRaises(rel, raw, reader, issue)))
      && (r.Some? ==> (s in r.value.stale <==> FileStale(rel, raw, reader, s)))
      && (r.Some? ==> r.value.total == |FindMarkers(ReadText(raw)).markers|)
  {
    hide FindMarkers, ReadText, Raises, OutOfDate, PassFrom, NoZeroFloor;
    var text := ReadText(raw);
    var f := FindMarkers(text);
    FloorsPositive(text);
    PassReports(rel, text, 0, f.markers, reader, issue, s);
    StructuralsAre(rel, f.problems, issue);
    RaisesNoStructural(rel, f.markers, reader, issue);
  }

  lemma {:induction false} RaisesNoStructural(rel: string, ms: seq<Marker>, reader: string -> Reading, issue: Issue)
    ensures issue.Structural? ==> !exists j :: 0 <= j < |ms| && Raises(rel, ms[j], reader, issue)
  {
  }

  lemma {:induction false} StructuralsAre(rel: string, ps: seq<Problem>, issue: Issue)
    ensures issue in Structurals(rel, ps) <==> issue.Structural? && issue.rel == rel && issue.problem in ps
  {
    if issue.Structural? && issue.rel == rel && issue.problem in ps {
      var j :| 0 <= j < |ps| && ps[j] == issue.problem;
      assert Structurals(rel, ps)[j] == issue;
    }
  }

  function TotalMarkers(claims: seq<string>, files: map<string, string>): nat
    requires AllPresent(claims, files)
  {
    if claims == [] then 0
    else |FindMarkers(ReadText(files[claims[0]])).markers| + TotalMarkers(claims[1..], files)
  }

  lemma {:induction false} CheckReports(claims: seq<string>, files: map<string, string>, reader: string -> Reading,
      issue: Issue, s: Stale)
    requires AllPresent(claims, files)
    ensures var r := Check(claims, files, reader);
      && (r.None? <==> exists i :: 0 <= i < |claims| && Unread(files[claims[i]], reader))
      && (r.Some? ==> (issue in r.value.problems <==>
            exists i :: 0 <= i < |claims| && FileRaises(claims[i], files[claims[i]], reader, issue)))
      && (r.Some? ==> (s in r.value.stale <==>
            exists i :: 0 <= i < |claims| && FileStale(claims[i], files[claims[i]], reader, s)))
      && (r.Some? ==> r.value.total == TotalMarkers(claims, files))
    decreases |claims|
  {
    hide FileRaises, FileStale, Unread, CheckFile, FindMarkers, ReadText;
    if claims != [] {
      var rest := claims[1..];
      assert forall i :: 0 < i < |claims| ==> claims[i] == rest[i - 1];
      assert forall i :: 0 <= i < |rest| ==> rest[i] == claims[i + 1];
      CheckReports(rest, files, reader, issue, s);
      FileReports(claims[0], files[claims[0]], reader, issue, s);
    }
  }

  /** What a run reports: it fails for a missing file or a source that cannot be read; its problems are those of the
      scans and of the markers that cannot be rendered, or that there is no marker at all; its stale markers are those
      whose value is not what the source renders to. */
  lemma {:induction false} RunReportsIff(claims: seq<string>, files: map<string, string>, reader: string -> Reading,
      write: bool, issue: Issue, s: Stale)
    ensures var o := RunOutcome(claims, files, reader, write);
      && (o.Failed? <==> exists i ::
            0 <= i < |claims| && (claims[i] !in files || Unread(files[claims[i]], reader)))
      && (o.Finished? ==> forall i :: 0 <= i < |claims| ==> claims[i] in files)
      && (o.Finished? ==> (issue in o.problems <==>
            (issue == NoMarkers && o.total == 0) ||
            exists i :: 0 <= i < |claims| && FileRaises(claims[i], files[claims[i]], reader, issue)))
      && (o.Finished? ==> (s in o.stale <==>
            exists i :: 0 <= i < |claims| && FileStale(claims[i], files[claims[i]], reader, s)))
      && (o.Finished? ==> o.total == TotalMarkers(claims, files))
  {
    hide FileRaises, FileStale, Unread, Check, TotalMarkers;
    if AllPresent(claims, files) {
      CheckReports(claims, files, reader, issue, s);
      NoMarkersNotRaised(claims, files, reader);
    }
  }

  lemma {:induction false} NoMarkersNotRaised(claims: seq<string>, files: map<string, string>,
      reader: string -> Reading)
    requires AllPresent(claims, files)
    ensures !exists i :: 0 <= i < |claims| && FileRaises(claims[i], files[claims[i]], reader, NoMarkers)
  {
    hide FindMarkers, ReadText;
  }

  // ----- what a run writes -----

  /** Nothing is written unless writing was asked for and nothing is wrong. */
  lemma {:induction false} WritesOnlyWhenAsked(claims: seq<string>, files: map<string, string>,
      reader: string -> Reading, write: bool)
    ensures var o := RunOutcome(claims, files, reader, write);
      !write || o.Failed? || o.problems != [] ==>
        RunFiles(claims, files, reader, write) == files && (o.Finished? ==> o.written == 0)
  {
    hide Check, AllPresent;
  }

  /** A file is rewritten exactly when its content changes. */
  lemma {:induction false} RewrittenIff(rel: string, raw: string, reader: string -> Reading)
    requires CheckFile(rel, raw, reader).Some? && CheckFile(rel, raw, reader).value.problems == [] && TidyReader(reader)
    ensures var r := CheckFile(rel, raw, reader).value; rel in r.rewrites <==> FigureFixpoint.Result(raw, rel, r) != raw
  {
    hide FindMarkers, Weave, ReadText, AllRender, TidyReader, CheckFile, Sound;
    CheckFileParts(rel, raw, reader);
    var text := ReadText(raw);
    var ms := FindMarkers(text).markers;
    RenderingsClean(rel, ms, reader);
    CleanNoReturn(Renderings(rel, ms, reader));
    ReadTextExact(raw);
    WeaveNoReturn(text, 0, ValueSpans(ms), Renderings(rel, ms, reader));
  }

  lemma {:induction false} RewrittenKeys(claims: seq<string>, files: map<string, string>, reader: string -> Reading,
      rel: string)
    requires AllPresent(claims, files) && Check(claims, files, reader).Some?
    ensures rel in Check(claims, files, reader).value.rewrites <==>
      exists i :: 0 <= i < |claims| && claims[i] == rel &&
        CheckFile(claims[i], files[claims[i]], reader).Some? &&
        rel in CheckFile(claims[i], files[claims[i]], reader).value.rewrites
    decreases |claims|
  {
    hide CheckFile, Check;
    if claims == [] {
      NothingChecked(files, reader);
    } else {
      var rest := claims[1..];
      CheckStep(claims, files, reader);
      RewrittenKeys(rest, files, reader, rel);
      OwnKeys(claims[0], files[claims[0]], reader);
      assert forall i :: 0 < i < |claims| ==> claims[i] == rest[i - 1];
      assert forall i :: 0 <= i < |rest| ==> rest[i] == claims[i + 1];
    }
  }

  lemma {:induction false} NothingChecked(files: map<string, string>, reader: string -> Reading)
    ensures Check([], files, reader) == Some(Report([], [], 0, map[]))
  {
  }

  /** The number of files written is the number of files that have changed. */
  lemma {:induction false} WrittenFiles(claims: seq<string>, files: map<string, string>, reader: string -> Reading)
    requires Distinct(claims) && TidyReader(reader)
    requires RunOutcome(claims, files, reader, true).Finished? && RunOutcome(claims, files, reader, true).problems == []
    ensures var files' := RunFiles(claims, files, reader, true);
      files'.Keys == files.Keys &&
      RunOutcome(claims, files, reader, true).written == |set rel | rel in files && files'[rel] != files[rel]|
  {
    hide CheckFile, Check, TidyReader, FigureFixpoint.Result, RunFiles, RunOutcome;
    RunIsCheck(claims, files, reader);
    var files', rewrites := RunFiles(claims, files, reader, true), Check(claims, files, reader).value.rewrites;
    RewriteKeys(claims, files, reader);
    forall rel | rel in files ensures files'[rel] != files[rel] <==> rel in rewrites {
      RewrittenKeys(claims, files, reader, rel);
      if rel in rewrites {
        var i :| 0 <= i < |claims| && claims[i] == rel && CheckFile(claims[i], files[claims[i]], reader).Some? &&
          rel in CheckFile(claims[i], files[claims[i]], reader).value.rewrites;
        CheckParts(claims, files, reader, i);
        RewrittenIff(rel, files[rel], reader);
      }
    }
    assert files'.Keys == files.Keys;
    assert (set rel | rel in files && files'[rel] != files[rel]) == rewrites.Keys;
    WrittenIs(claims, files, reader);
  }

  lemma {:induction false} WrittenIs(claims: seq<string>, files: map<string, string>, reader: string -> Reading)
    requires RunOutcome(claims, files, reader, true).Finished? && RunOutcome(claims, files, reader, true).problems == []
    ensures AllPresent(claims, files) && Check(claims, files, reader).Some?
    ensures RunOutcome(claims, files, reader, true).written == |Check(claims, files, reader).value.rewrites.Keys|
  {
    hide Check, AllPresent;
  }
}
