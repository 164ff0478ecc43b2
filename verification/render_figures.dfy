/** Rendering figures into the claim files: formatting, staleness, rewriting, and why a second
    run has nothing left to do. */
module RenderFigures {
  import opened Decimal
  import opened Wrappers
  import opened FigureMarkers
  import opened FigureScan
  import FigurePasses

  // ----- values -----

  /** What a source reader returns: a count, a text, or something that is neither. */
  datatype Value = Count(n: int) | Text(s: string) | Unfit

  /** Reading one figure's source: a value, an unknown name, or a source that cannot be read. */
  datatype Reading = Known(value: Value) | UnknownName | Unreadable

  datatype RenderError = BadSource | NeedsCount(floor: nat) | BelowFloor(n: int, floor: nat)

  /** Thousands separators, with the sign in front. */
  function Separated(n: int): string {
    if n < 0 then "-" + Grouped(-n) else Grouped(n)
  }

  function Render(value: Value, floor: Option<nat>): Result<string, RenderError>
    requires floor != Some(0)
  {
    match (value, floor)
    case (Unfit, _) => Err(BadSource)
    case (Count(n), None) => Ok(Separated(n))
    case (Text(s), None) => Ok(s)
    case (Text(_), Some(k)) => Err(NeedsCount(k))
    case (Count(n), Some(k)) => if n < k then Err(BelowFloor(n, k)) else Ok(Separated(n / k * k) + "+")
  }

  /** A floor is refused below `k`; otherwise the text is a positive multiple of `k`, a plus
      sign, and nothing that a step of `k` could raise without passing the value. */
  lemma {:induction false} RenderFloor(n: int, k: nat)
    requires k > 0
    ensures Render(Count(n), Some(k)).Ok? <==> n >= k
    ensures n >= k ==>
      var text := Render(Count(n), Some(k)).value;
      text != "" && text[|text| - 1] == '+'
      && var digits := DropCommas(text[..|text| - 1]);
         AllDigits(digits) && ParseNat(digits) % k == 0 && k <= ParseNat(digits) <= n < ParseNat(digits) + k
  {
    if n >= k {
      var m := n / k * k;
      assert m % k == 0 && k <= m <= n < m + k by { FloorFacts(n, k); }
      GroupedParse(m);
      var text := Separated(m) + "+";
      assert text[..|text| - 1] == Grouped(m);
    }
  }

  lemma {:induction false} FloorFacts(n: int, k: nat)
    requires 0 < k <= n
    ensures n / k * k % k == 0 && k <= n / k * k <= n < n / k * k + k
  {
    var q := n / k;
    assert n == q * k + n % k;
    assert q >= 1;
    MultipleMod(q, k);
  }

  lemma {:induction false} MultipleMod(q: nat, k: nat)
    requires k > 0
    ensures q * k % k == 0
  {
    var t, r := q * k / k, q * k % k;
    assert q * k == t * k + r;
    assert r == (q - t) * k;
    MulBound(q - t, k);
  }

  /** An exact figure states the value: dropping the commas, behind the sign of a negative one, reads it
      back. */
  lemma {:induction false} RenderExact(n: int)
    ensures var text := Render(Count(n), None).value;
      if n >= 0 then AllDigits(DropCommas(text)) && ParseNat(DropCommas(text)) == n
      else text != "" && text[0] == '-' && AllDigits(DropCommas(text[1..])) && ParseNat(DropCommas(text[1..])) == -n
  {
    if n >= 0 {
      GroupedParse(n);
    } else {
      GroupedParse(-n);
      assert ("-" + Grouped(-n))[1..] == Grouped(-n);
    }
  }

  /** The only texts the registered sources produce: `passed/total`. */
  function Rate(passed: int, total: int): string {
    (if passed < 0 then "-" + Digits(-passed) else Digits(passed))
    + "/" + (if total < 0 then "-" + Digits(-total) else Digits(total))
  }

  lemma {:induction false} CleanDigits(s: string)
    requires forall k :: 0 <= k < |s| ==> IsDigit(s[k]) || s[k] == ','
    ensures Clean(s)
  {
  }

  lemma {:induction false} CleanConcat(a: string, b: string)
    requires Clean(a) && Clean(b)
    ensures Clean(a + b)
  {
    hide IsBreak;
  }

  lemma {:induction false} CleanSigned(n: int)
    ensures Clean(Separated(n)) && Clean(if n < 0 then "-" + Digits(-n) else Digits(n))
  {
    var m := if n < 0 then -n else n;
    GroupedChars(m);
    CleanDigits(Grouped(m));
    CleanDigits(Digits(m));
    assert Clean("-");
    CleanConcat("-", Grouped(m));
    CleanConcat("-", Digits(m));
  }

  lemma {:induction false} RateIsClean(passed: int, total: int)
    ensures Clean(Rate(passed, total))
  {
    CleanSigned(passed);
    CleanSigned(total);
    assert Clean("/");
    hide Clean;
    var a := if passed < 0 then "-" + Digits(-passed) else Digits(passed);
    CleanConcat(a, "/");
    CleanConcat(a + "/", if total < 0 then "-" + Digits(-total) else Digits(total));
  }

  /** The sources only ever return texts that a marker can hold on one line of prose. */
  ghost predicate TidyReader(reader: string -> Reading) {
    forall name :: reader(name).Known? && reader(name).value.Text? ==> Clean(reader(name).value.s)
  }

  lemma {:induction false} RenderClean(reader: string -> Reading, name: string, floor: Option<nat>)
    requires TidyReader(reader) && reader(name).Known? && floor != Some(0)
    requires Render(reader(name).value, floor).Ok?
    ensures Clean(Render(reader(name).value, floor).value)
  {
    match reader(name).value {
      case Count(n) =>
        if floor.None? {
          CleanSigned(n);
        } else {
          CleanSigned(n / floor.value * floor.value);
          assert Clean("+");
          hide Clean;
          CleanConcat(Separated(n / floor.value * floor.value), "+");
        }
      case _ =>
    }
  }

  // ----- one file -----

  datatype Issue =
    | Structural(rel: string, problem: Problem)
    | UnknownFigure(rel: string, line: nat, name: string)
    | CannotRender(rel: string, line: nat, name: string, error: RenderError)
    | NoMarkers

  datatype Stale = Stale(rel: string, line: nat, name: string, stored: string, rendered: string)

  /** What the loop body makes of one marker. */
  datatype Verdict = Rendered(text: string) | Refused(issue: Issue) | Aborts

  function Judge(rel: string, m: Marker, reader: string -> Reading): Verdict
    requires m.floor != Some(0)
  {
    match reader(m.name)
    case Unreadable => Aborts
    case UnknownName => Refused(UnknownFigure(rel, m.line, m.name))
    case Known(v) =>
      match Render(v, m.floor)
      case Ok(text) => Rendered(text)
      case Err(e) => Refused(CannotRender(rel, m.line, m.name, e))
  }

  predicate NoZeroFloor(ms: seq<Marker>) {
    forall i :: 0 <= i < |ms| ==> ms[i].floor != Some(0)
  }

  /** What a run finds: the problems `--write` cannot fix, the stale markers it fixes, how many
      markers there are, and the new texts. */
  datatype Report = Report(problems: seq<Issue>, stale: seq<Stale>, total: nat, rewrites: map<string, string>)

  /** The markers of one file from the cursor `last` on: issues, stale markers and new text. */
  datatype FilePass = FilePass(problems: seq<Issue>, stale: seq<Stale>, text: string)

  function PassFrom(rel: string, text: string, last: nat, ms: seq<Marker>, reader: string -> Reading): Option<FilePass>
    requires NoZeroFloor(ms)
    decreases |ms|
  {
    if ms == [] then Some(FilePass([], [], Slice(text, last, |text|)))
    else
      var m := ms[0];
      match Judge(rel, m, reader)
      case Aborts => None
      case Refused(issue) =>
        (match PassFrom(rel, text, last, ms[1..], reader)
         case None => None
         case Some(p) => Some(FilePass([issue] + p.problems, p.stale, p.text)))
      case Rendered(r) =>
        (match PassFrom(rel, text, m.valueEnd, ms[1..], reader)
         case None => None
         case Some(p) =>
           var s := if r != m.value then [Stale(rel, m.line, m.name, m.value, r)] else [];
           Some(FilePass(p.problems, s + p.stale, Slice(text, last, m.valueStart) + r + p.text)))
  }

  function Structurals(rel: string, ps: seq<Problem>): seq<Issue> {
    seq(|ps|, i requires 0 <= i < |ps| => Structural(rel, ps[i]))
  }

  // ----- reading and writing files -----

  /** Reading a file as text: carriage returns, alone or before a newline, become newlines. */
  function ReadText(raw: string): string {
    if raw == "" then ""
    else if raw[0] == '\r' then
      (if |raw| > 1 && raw[1] == '\n' then "\n" + ReadText(raw[2..]) else "\n" + ReadText(raw[1..]))
    else [raw[0]] + ReadText(raw[1..])
  }

  /** The text read is the file's own exactly when the file holds no carriage return. */
  lemma {:induction false} ReadTextExact(raw: string)
    ensures ReadText(raw) == raw <==> '\r' !in raw
    ensures '\r' !in ReadText(raw)
    decreases |raw|
  {
    if raw != "" {
      if raw[0] == '\r' {
        var rest := if |raw| > 1 && raw[1] == '\n' then raw[2..] else raw[1..];
        ReadTextExact(rest);
        assert ReadText(raw)[0] == '\n';
      } else {
        ReadTextExact(raw[1..]);
        assert raw == [raw[0]] + raw[1..];
        assert ReadText(raw)[1..] == ReadText(raw[1..]);
      }
    }
  }

  // ----- the whole run -----

  lemma {:induction false} FloorsPositive(text: string)
    ensures NoZeroFloor(FindMarkers(text).markers)
  {
    hide Items, Tokens, Bads, PairUp;
    var items := Items(text, 0, 1, false);
    ItemFloors(text, 0, 1, false);
    TokenFloors(items);
    PairFloors(text, Tokens(items), None);
  }

  ghost predicate FloorOk(t: Token) { t.Open? ==> t.floor != Some(0) }

  lemma {:induction false} ScanFloors(u: string, n: nat, odd: bool, at: nat, lineno: nat)
    requires n <= |u|
    ensures forall t :: Tok(t) in Scan(u, n, odd, at, lineno) ==> FloorOk(t)
  {
    hide Scan;
    var items := Scan(u, n, odd, at, lineno);
    forall t | Tok(t) in items ensures FloorOk(t) {
      var j :| 0 <= j < |items| && items[j] == Tok(t);
      var i := ScanItem(u, n, odd, at, lineno, j);
      hide KeywordLen, OddTicks;
    }
  }

  lemma {:induction false} ItemFloors(t: string, at: nat, lineno: nat, inFence: bool)
    ensures forall k :: Tok(k) in Items(t, at, lineno, inFence) ==> FloorOk(k)
    decreases |t|
  {
    hide Scan, IsFence, HasStart, LineLen, FloorOk;
    if t != "" {
      var n := LineLen(t);
      ScanFloors(t[..n], n, false, at, lineno);
      ItemFloors(t[n..], at + n, lineno + 1, inFence != IsFence(t[..n]));
    }
  }

  lemma {:induction false} TokenFloors(items: seq<Item>)
    requires forall t :: Tok(t) in items ==> FloorOk(t)
    ensures forall t :: t in Tokens(items) ==> FloorOk(t)
  {
    hide FloorOk;
    if items != [] {
      assert forall i :: i in items[1..] ==> i in items;
      TokenFloors(items[1..]);
      assert items[0].Tok? ==> items[0] == Tok(items[0].token);
    }
  }

  lemma {:induction false} PairFloors(text: string, tokens: seq<Token>, pending: Option<Token>)
    requires pending.Some? ==> pending.value.Open? && FloorOk(pending.value)
    requires forall t :: t in tokens ==> FloorOk(t)
    ensures NoZeroFloor(PairUp(text, tokens, pending).markers)
    decreases |tokens|
  {
    hide Slice;
    if tokens != [] {
      assert forall t :: t in tokens[1..] ==> t in tokens;
      assert FloorOk(tokens[0]);
      PairFloors(text, tokens[1..], if tokens[0].Open? then Some(tokens[0]) else None);
    }
  }

  predicate AllPresent(claims: seq<string>, files: map<string, string>) {
    forall i :: 0 <= i < |claims| ==> claims[i] in files
  }

  function CheckFile(rel: string, raw: string, reader: string -> Reading): Option<Report> {
    var text := ReadText(raw);
    var f := FindMarkers(text);
    FloorsPositive(text);
    match PassFrom(rel, text, 0, f.markers, reader)
    case None => None
    case Some(p) =>
      Some(Report(Structurals(rel, f.problems) + p.problems, p.stale, |f.markers|,
                  if p.text != text then map[rel := p.text] else map[]))
  }

  function Combine(a: Report, b: Report): Report {
    Report(a.problems + b.problems, a.stale + b.stale, a.total + b.total, a.rewrites + b.rewrites)
  }

  /** Every claim file in turn; `None` when a source cannot be read. */
  function Check(claims: seq<string>, files: map<string, string>, reader: string -> Reading): Option<Report>
    requires AllPresent(claims, files)
  {
    if claims == [] then Some(Report([], [], 0, map[]))
    else
      match (CheckFile(claims[0], files[claims[0]], reader), Check(claims[1..], files, reader))
      case (Some(a), Some(b)) => Some(Combine(a, b))
      case _ => None
  }

  datatype Outcome = Failed | Finished(problems: seq<Issue>, stale: seq<Stale>, total: nat, written: nat)

  function Problems(r: Report): seq<Issue> {
    r.problems + (if r.total == 0 then [NoMarkers] else [])
  }

  function RunOutcome(claims: seq<string>, files: map<string, string>, reader: string -> Reading,
      write: bool): Outcome {
    if !AllPresent(claims, files) then Failed
    else
      match Check(claims, files, reader)
      case None => Failed
      case Some(r) =>
        Finished(Problems(r), r.stale, r.total, if write && Problems(r) == [] then |r.rewrites| else 0)
  }

  function RunFiles(claims: seq<string>, files: map<string, string>, reader: string -> Reading,
      write: bool): map<string, string> {
    if !AllPresent(claims, files) then files
    else
      match Check(claims, files, reader)
      case None => files
      case Some(r) => if write && Problems(r) == [] then files + r.rewrites else files
  }

  /** The files of a checkout, with the claim files among them. */
  class Checkout {
    var files: map<string, string>
    const claims: seq<string>

    constructor (claims: seq<string>, files: map<string, string>)
      ensures this.claims == claims && this.files == files
    {
      this.claims := claims;
      this.files := files;
    }

    /** `read_value`, with the values read so far. */
    method ReadValue(reader: string -> Reading, name: string, cache: map<string, Value>)
      returns (reading: Reading, cache': map<string, Value>)
      requires forall n :: n in cache ==> reader(n) == Known(cache[n])
      ensures reading == reader(name)
      ensures forall n :: n in cache' ==> reader(n) == Known(cache'[n])
    {
      cache' := cache;
      if name in cache {
        reading := Known(cache[name]);
      } else {
        reading := reader(name);
        if reading.Known? {
          cache' := cache[name := reading.value];
        }
      }
    }

    /** The inner loop: judge the markers of one file and rebuild its text around a cursor. */
    method ProcessFile(rel: string, raw: string, reader: string -> Reading, cache: map<string, Value>)
      returns (report: Option<Report>, cache': map<string, Value>)
      requires forall n :: n in cache ==> reader(n) == Known(cache[n])
      ensures report == CheckFile(rel, raw, reader)
      ensures forall n :: n in cache' ==> reader(n) == Known(cache'[n])
    {
      hide FigureMarkers.FindMarkers, Render, ReadText, NoZeroFloor;
      cache' := cache;
      var text := ReadText(raw);
      var markers, structural := FigurePasses.FindMarkers(text);
      FloorsPositive(text);
      var problems: seq<Issue>, stale: seq<Stale>, pieces: string, last: nat := [], [], "", 0;
      var i := 0;
      ghost var whole := PassFrom(rel, text, 0, markers, reader);
      PrependNothing(whole);
      assert markers[0..] == markers;
      while i < |markers|
        invariant i <= |markers| && NoZeroFloor(markers[i..])
        invariant forall n :: n in cache' ==> reader(n) == Known(cache'[n])
        invariant whole == Prepend(problems, stale, pieces, PassFrom(rel, text, last, markers[i..], reader))
      {
        var m := markers[i];
        assert markers[i..][0] == m && markers[i..][1..] == markers[i + 1..];
        NoZeroTail(markers[i..]);
        PassStep(rel, text, last, markers[i..], reader, problems, stale, pieces);
        var reading;
        reading, cache' := ReadValue(reader, m.name, cache');
        match reading {
          case Unreadable =>
            report := None;
            return;
          case UnknownName =>
            problems := problems + [UnknownFigure(rel, m.line, m.name)];
          case Known(value) =>
            match Render(value, m.floor) {
              case Err(e) => problems := problems + [CannotRender(rel, m.line, m.name, e)];
              case Ok(rendered) =>
                if rendered != m.value {
                  stale := stale + [Stale(rel, m.line, m.name, m.value, rendered)];
                }
                pieces := pieces + Slice(text, last, m.valueStart) + rendered;
                last := m.valueEnd;
            }
        }
        i := i + 1;
      }
      var newText := pieces + Slice(text, last, |text|);
      assert problems + [] == problems && stale + [] == stale;
      report := Some(Report(Structurals(rel, structural) + problems, stale, |markers|,
                            if newText != text then map[rel := newText] else map[]));
    }

    /** `process`: check every claim file, and rewrite the stale ones unless there is a problem. */
    method Process(reader: string -> Reading, write: bool) returns (outcome: Outcome)
      modifies this
      ensures outcome == RunOutcome(claims, old(files), reader, write)
      ensures files == RunFiles(claims, old(files), reader, write)
    {
      hide CheckFile, Combine;
      if !AllPresent(claims, files) {
        return Failed;
      }
      var report := Report([], [], 0, map[]);
      var cache: map<string, Value> := map[];
      var i := 0;
      assert claims[0..] == claims;
      CombineNothing(Check(claims, files, reader));
      while i < |claims|
        invariant i <= |claims| && files == old(files) && AllPresent(claims[i..], files)
        invariant forall n :: n in cache ==> reader(n) == Known(cache[n])
        invariant Check(claims, files, reader)
               == match Check(claims[i..], files, reader) case None => None case Some(r) => Some(Combine(report, r))
      {
        assert claims[i..][1..] == claims[i + 1..] && claims[i..][0] == claims[i];
        var one;
        one, cache := ProcessFile(claims[i], files[claims[i]], reader, cache);
        if one.None? {
          return Failed;
        }
        CombineAssoc(report, one.value, Check(claims[i + 1..], files, reader));
        report := Combine(report, one.value);
        i := i + 1;
      }
      CombineEnd(report);
      var problems := Problems(report);
      var written := 0;
      if write && problems == [] {
        files := files + report.rewrites;
        written := |report.rewrites|;
      }
      return Finished(problems, report.stale, report.total, written);
    }
  }

  lemma {:induction false} CombineNothing(c: Option<Report>)
    ensures c.Some? ==> Combine(Report([], [], 0, map[]), c.value) == c.value
  {
  }

  lemma {:induction false} CombineEnd(a: Report)
    ensures Combine(a, Report([], [], 0, map[])) == a
  {
  }

  lemma {:induction false} CombineAssoc(a: Report, b: Report, c: Option<Report>)
    ensures c.Some? ==> Combine(a, Combine(b, c.value)) == Combine(Combine(a, b), c.value)
  {
    if c.Some? {
      var r := c.value;
      assert a.problems + (b.problems + r.problems) == a.problems + b.problems + r.problems;
      assert a.stale + (b.stale + r.stale) == a.stale + b.stale + r.stale;
      assert a.rewrites + (b.rewrites + r.rewrites) == a.rewrites + b.rewrites + r.rewrites;
    }
  }

  lemma {:induction false} NoZeroTail(ms: seq<Marker>)
    requires NoZeroFloor(ms) && ms != []
    ensures NoZeroFloor(ms[1..]) && ms[0].floor != Some(0)
  {
  }

  function Prepend(problems: seq<Issue>, stale: seq<Stale>, pieces: string, p: Option<FilePass>): Option<FilePass> {
    match p
    case None => None
    case Some(q) => Some(FilePass(problems + q.problems, stale + q.stale, pieces + q.text))
  }

  lemma {:induction false} PrependNothing(p: Option<FilePass>)
    ensures Prepend([], [], "", p) == p
  {
    if p.Some? {
      assert [] + p.value.problems == p.value.problems && [] + p.value.stale == p.value.stale &&
        "" + p.value.text == p.value.text;
    }
  }

  lemma {:induction false} PassStep(rel: string, text: string, last: nat, ms: seq<Marker>, reader: string -> Reading,
                                    problems: seq<Issue>, stale: seq<Stale>, pieces: string)
    requires ms != [] && NoZeroFloor(ms)
    ensures Prepend(problems, stale, pieces, PassFrom(rel, text, last, ms, reader))
         == match Judge(rel, ms[0], reader)
            case Aborts => None
            case Refused(issue) => Prepend(problems + [issue], stale, pieces,
              PassFrom(rel, text, last, ms[1..], reader))
            case Rendered(r) =>
              var stale' := if r != ms[0].value then stale + [Stale(rel, ms[0].line, ms[0].name, ms[0].value, r)]
                else stale;
              Prepend(problems, stale', pieces + Slice(text, last, ms[0].valueStart) + r,
                      PassFrom(rel, text, ms[0].valueEnd, ms[1..], reader))
  {
    hide Slice, Judge;
    match Judge(rel, ms[0], reader)
    case Aborts =>
    case Refused(issue) =>
      match PassFrom(rel, text, last, ms[1..], reader) {
        case None =>
        case Some(p) => assert problems + ([issue] + p.problems) == problems + [issue] + p.problems;
      }
    case Rendered(r) =>
      match PassFrom(rel, text, ms[0].valueEnd, ms[1..], reader) {
        case None =>
        case Some(p) =>
          var s := if r != ms[0].value then [Stale(rel, ms[0].line, ms[0].name, ms[0].value, r)] else [];
          assert stale + (s + p.stale) == stale + s + p.stale && stale + [] == stale;
          assert pieces + (Slice(text, last, ms[0].valueStart) + r + p.text)
              == pieces + Slice(text, last, ms[0].valueStart) + r + p.text;
      }
  }
}
