/** Whole runs of the cassette: recording across failed writes and restarts, and replaying what
    was recorded. */
module CassetteRuns {
  import opened Wrappers
  import opened Cassettes

  // ----- recording -----

  /** One step of a recording: a call, or the process starting again from the file. */
  datatype Event =
    | Asks(call: Call, live: Outcome, persistOk: bool)
    | Restart

  ghost function Reopened(w: World): World {
    w.(mem := if w.disk.Some? then w.disk.value else FRESH, tally := Tally(0, 0))
  }

  ghost function Step(p: Setup, w: World, e: Event): World {
    match e
    case Restart => Reopened(w)
    case Asks(c, live, persistOk) => Completed(p, Record, w, c, live, persistOk, true).0
  }

  ghost function Run(p: Setup, w: World, es: seq<Event>): World
    decreases |es|
  {
    if es == [] then w else Run(p, Step(p, w, es[0]), es[1..])
  }

  /** What a lookup shows in memory is what is durable. */
  ghost predicate Agree(w: World) {
    forall k :: Lookup(w.mem, k) == LookupDisk(w.disk, k)
  }

  /** Nothing visible on disk is changed or lost. */
  ghost predicate Grows(a: Option<Document>, b: Option<Document>) {
    forall k :: LookupDisk(a, k).Some? ==> LookupDisk(b, k) == LookupDisk(a, k)
  }

  lemma {:induction false} StoredLookups(w: World, key: string, surface: string, prompt: string, e: Entry,
      persistOk: bool, k: string)
    requires Lookup(w.mem, key) == None && Lookup(w.mem, k) == LookupDisk(w.disk, k)
    ensures var w' := Stored(w, key, surface, prompt, e, persistOk);
      Lookup(w'.mem, k) == LookupDisk(w'.disk, k) == if k == key && persistOk then Visible(e) else Lookup(w.mem, k)
  {
    hide Visible;
  }

  /** One call of a recording: the lookups after it, and whether the provider was asked. */
  lemma {:induction false} CallLookups(p: Setup, w: World, c: Call, live: Outcome, persistOk: bool, k: string)
    requires Agree(w)
    ensures var w' := Completed(p, Record, w, c, live, persistOk, true).0; var key := p.key(c);
      && Lookup(w'.mem, k) == LookupDisk(w'.disk, k)
      && LookupDisk(w'.disk, k) ==
           (if k == key && LookupDisk(w.disk, key).None? && p.Keeps(live) &&
             persistOk then Some(live) else LookupDisk(w.disk, k))
      && w'.asked == w.asked + (if LookupDisk(w.disk, key).None? then 1 else 0)
  {
    var key := p.key(c);
    assert Lookup(w.mem, key) == LookupDisk(w.disk, key) && Lookup(w.mem, k) == LookupDisk(w.disk, k);
    hide Agree, Lookup, LookupDisk, Stored, Visible;
    StoredIsSeen(p, c, live);
    if Lookup(w.mem, key).None? && p.Keeps(live) {
      StoredLookups(w.(asked := w.asked + 1), key, p.surface, p.sha(c.system), p.EntryFor(c, live).value, persistOk, k);
    }
  }

  /** A completion, or a rejected tool call that came as one of three errors. */
  ghost predicate Storable(p: Setup, live: Outcome) {
    live.Ok? || (p.invalid(live.error) && (live.error.Request? || live.error.Parse? || live.error.Http?))
  }

  /** One recorded call that found nothing, with the write succeeding: afterwards the file shows the live
      answer exactly when that is a completion, or a rejected tool call that came as one of three errors, and
      otherwise nothing still. The caller gets the live answer, and the write stamps the file. */
  lemma {:induction false} OneCallStores(p: Setup, w: World, c: Call, live: Outcome)
    requires Agree(w) && LookupDisk(w.disk, p.key(c)) == None
    ensures var (w', answer) := Completed(p, Record, w, c, live, true, true);
      var storable := live.Ok? ||
        (p.invalid(live.error) && (live.error.Request? || live.error.Parse? || live.error.Http?));
      && answer == live && w'.asked == w.asked + 1 && w'.ledger == w.ledger && w'.tally == w.tally
      && LookupDisk(w'.disk, p.key(c)) == (if storable then Some(live) else None)
      && (!storable ==> w'.disk == w.disk && w'.mem == w.mem)
      && (storable ==>
            w'.disk.value.version == CASSETTE_VERSION && p.surface in w'.disk.value.surfaces &&
            p.sha(c.system) in w'.disk.value.prompts)
  {
    CallLookups(p, w, c, live, true, p.key(c));
    assert Lookup(w.mem, p.key(c)) == LookupDisk(w.disk, p.key(c));
    hide Agree, Lookup, LookupDisk, Visible;
    StoredIsSeen(p, c, live);
  }

  /** A call that the file shows an outcome for is answered with it, and nothing is asked or written; when a
      write fails the caller is told, unless nothing was to be written. */
  lemma {:induction false} OtherCalls(p: Setup, w: World, c: Call, live: Outcome, persistOk: bool)
    requires Agree(w)
    ensures var (w', answer) := Completed(p, Record, w, c, live, persistOk, true);
      && (LookupDisk(w.disk, p.key(c)).Some? ==>
            Some(answer) == LookupDisk(w.disk, p.key(c)) && w' == w.(tally := w.tally.(hits := w.tally.hits + 1)))
      && (LookupDisk(w.disk, p.key(c)).None? && !persistOk ==>
            w'.disk == w.disk && w'.asked == w.asked + 1 &&
            answer == if Storable(p, live) then Err(CassetteMiss(WriteFailed)) else live)
  {
    assert Lookup(w.mem, p.key(c)) == LookupDisk(w.disk, p.key(c));
    hide Agree, Lookup, LookupDisk;
    StoredIsSeen(p, c, live);
  }

  lemma {:induction false} StepAgrees(p: Setup, w: World, e: Event)
    requires Agree(w)
    ensures Agree(Step(p, w, e)) && Grows(w.disk, Step(p, w, e).disk)
  {
    if e.Asks? {
      hide Completed, Agree;
      forall k
        ensures var w' := Step(p, w, e);
          Lookup(w'.mem, k) == LookupDisk(w'.disk, k) &&
            (LookupDisk(w.disk, k).Some? ==> LookupDisk(w'.disk, k) == LookupDisk(w.disk, k))
      {
        CallLookups(p, w, e.call, e.live, e.persistOk, k);
      }
      AgreeIntro(Step(p, w, e));
    }
  }

  lemma {:induction false} AgreeIntro(w: World)
    requires forall k :: Lookup(w.mem, k) == LookupDisk(w.disk, k)
    ensures Agree(w)
  {
  }

  /** In every recording, with writes failing and the process restarting anywhere: after every
      step memory and disk show the same, and nothing ever shown is changed or lost. */
  lemma {:induction false} RunAgrees(p: Setup, w: World, es: seq<Event>)
    requires Agree(w)
    ensures Agree(Run(p, w, es)) && Grows(w.disk, Run(p, w, es).disk)
    decreases |es|
  {
    hide Step, Agree;
    if es != [] {
      StepAgrees(p, w, es[0]);
      RunAgrees(p, Step(p, w, es[0]), es[1..]);
      GrowsTrans(w.disk, Step(p, w, es[0]).disk, Run(p, w, es).disk);
    }
  }

  lemma {:induction false} GrowsTrans(a: Option<Document>, b: Option<Document>, c: Option<Document>)
    requires Grows(a, b) && Grows(b, c)
    ensures Grows(a, c)
  {
  }

  lemma {:induction false} RunSplit(p: Setup, w: World, es: seq<Event>, fs: seq<Event>)
    ensures Run(p, w, es + fs) == Run(p, Run(p, w, es), fs)
    decreases |es|
  {
    hide Step;
    if es == [] {
      assert es + fs == fs;
    } else {
      assert (es + fs)[0] == es[0] && (es + fs)[1..] == es[1..] + fs;
      RunSplit(p, Step(p, w, es[0]), es[1..], fs);
    }
  }

  /** The inner provider is asked at a step of a run exactly when the file then shows nothing
      for the call. */
  lemma {:induction false} AskedOnlyWhenUnseen(p: Setup, w: World, es: seq<Event>, i: nat)
    requires Agree(w) && i < |es| && es[i].Asks?
    ensures var before, after := Run(p, w, es[..i]), Run(p, w, es[..i + 1]);
      after.asked == before.asked + (if LookupDisk(before.disk, p.key(es[i].call)).None? then 1 else 0)
  {
    hide Completed, Agree;
    RunAgrees(p, w, es[..i]);
    assert es[..i + 1] == es[..i] + [es[i]];
    RunSplit(p, w, es[..i], [es[i]]);
    var before := Run(p, w, es[..i]);
    RunOne(p, before, es[i]);
    CallLookups(p, before, es[i].call, es[i].live, es[i].persistOk, p.key(es[i].call));
  }

  lemma {:induction false} RunOne(p: Setup, w: World, e: Event)
    ensures Run(p, w, [e]) == Step(p, w, e)
  {
    hide Step;
    assert [e][1..] == [];
  }

  /** The first outcome for a key that may be stored. */
  ghost function FirstKept(p: Setup, es: seq<Event>, k: string): Option<Outcome>
    decreases |es|
  {
    if es == [] then None
    else if es[0].Asks? && p.key(es[0].call) == k && p.Keeps(es[0].live) then Some(es[0].live)
    else FirstKept(p, es[1..], k)
  }

  ghost predicate AllWritten(es: seq<Event>) {
    forall i :: 0 <= i < |es| && es[i].Asks? ==> es[i].persistOk
  }

  /** Event `i` is the first one that asks with this key and gets an answer that may be stored. */
  ghost predicate FirstStored(p: Setup, es: seq<Event>, k: string, i: int) {
    0 <= i < |es| && es[i].Asks? && p.key(es[i].call) == k && Storable(p, es[i].live) &&
    forall j :: 0 <= j < i && es[j].Asks? && p.key(es[j].call) == k ==> !Storable(p, es[j].live)
  }

  lemma {:induction false} FirstKeptIs(p: Setup, es: seq<Event>, k: string, o: Outcome)
    ensures FirstKept(p, es, k) == Some(o) <==> exists i :: FirstStored(p, es, k, i) && es[i].live == o
    decreases |es|
  {
    if es != [] {
      if es[0].Asks? && p.key(es[0].call) == k && p.Keeps(es[0].live) {
        assert FirstStored(p, es, k, 0);
      } else {
        FirstKeptIs(p, es[1..], k, o);
        hide FirstStored;
        forall i: int ensures FirstStored(p, es, k, i + 1) <==> FirstStored(p, es[1..], k, i) {
          FirstStoredLater(p, es, k, i);
        }
        forall i: int | FirstStored(p, es, k, i) ensures 0 < i < |es| && es[i] == es[1..][i - 1] {
          StoredInside(p, es, k, i);
        }
        forall i: int | FirstStored(p, es[1..], k, i) ensures 0 <= i < |es| - 1 && es[i + 1] == es[1..][i] {
          StoredInside(p, es[1..], k, i);
        }
        if i :| FirstStored(p, es, k, i) && es[i].live == o {
          assert FirstStored(p, es, k, (i - 1) + 1);
        }
        if i :| FirstStored(p, es[1..], k, i) && es[1..][i].live == o {
          assert FirstStored(p, es, k, i + 1);
        }
      }
    }
  }

  lemma {:induction false} StoredInside(p: Setup, es: seq<Event>, k: string, i: int)
    requires FirstStored(p, es, k, i)
    ensures 0 <= i < |es|
    ensures !(es[0].Asks? && p.key(es[0].call) == k && Storable(p, es[0].live)) ==> i > 0
  {
  }

  lemma {:induction false} FirstStoredLater(p: Setup, es: seq<Event>, k: string, i: int)
    requires es != [] && !(es[0].Asks? && p.key(es[0].call) == k && Storable(p, es[0].live))
    ensures FirstStored(p, es, k, i + 1) <==> FirstStored(p, es[1..], k, i)
  {
    hide Storable;
    var rest := es[1..];
    assert forall j :: 0 <= j < |rest| ==> rest[j] == es[j + 1];
    assert forall j :: 0 < j < |es| ==> es[j] == rest[j - 1];
  }

  /** With every write succeeding, the file shows for each key what it showed before, or else
      the first outcome seen live that may be stored. */
  lemma {:induction false} RecordingKeepsFirst(p: Setup, w: World, es: seq<Event>, k: string)
    requires Agree(w) && AllWritten(es)
    ensures LookupDisk(Run(p, w, es).disk, k)
         == if LookupDisk(w.disk, k).Some? then LookupDisk(w.disk, k) else FirstKept(p, es, k)
    ensures LookupDisk(w.disk, k).None? ==> forall o ::
      LookupDisk(Run(p, w, es).disk, k) == Some(o) <==> exists i :: FirstStored(p, es, k, i) && es[i].live == o
    decreases |es|
  {
    if es != [] {
      var e := es[0];
      assert e.Asks? ==> e.persistOk;
      AllWrittenTail(es);
      StepAgrees(p, w, e);
      hide Completed, Agree, LookupDisk, AllWritten;
      if e.Asks? {
        CallLookups(p, w, e.call, e.live, e.persistOk, k);
      }
      RecordingKeepsFirst(p, Step(p, w, e), es[1..], k);
    }
    forall o
      ensures FirstKept(p, es, k) == Some(o) <==> exists i :: FirstStored(p, es, k, i) && es[i].live == o
    {
      FirstKeptIs(p, es, k, o);
    }
  }

  lemma {:induction false} AllWrittenTail(es: seq<Event>)
    requires AllWritten(es) && es != []
    ensures AllWritten(es[1..])
  {
    assert forall i :: 0 <= i < |es| - 1 ==> es[1..][i] == es[i + 1];
  }

  /** A file this build can open stays one: every write stamps this build's version. */
  lemma {:induction false} RestartsAccepted(p: Setup, w: World, es: seq<Event>)
    requires w.mem.version <= CASSETTE_VERSION && (w.disk.Some? ==> w.disk.value.version <= CASSETTE_VERSION)
    ensures var d := Run(p, w, es).disk; d.Some? ==> d.value.version <= CASSETTE_VERSION
    decreases |es|
  {
    if es != [] {
      var w1 := Step(p, w, es[0]);
      assert w1.mem.version <= CASSETTE_VERSION && (w1.disk.Some? ==> w1.disk.value.version <= CASSETTE_VERSION) by {
        hide Lookup, Run;
      }
      hide Step;
      RestartsAccepted(p, w1, es[1..]);
    }
  }

  // ----- replaying -----

  /** Replay a list of calls; the ledger can be written. The inner provider would answer `live`. */
  ghost function ReplayRun(p: Setup, w: World, calls: seq<Call>, live: Call -> Outcome): World
    decreases |calls|
  {
    if calls == [] then w
    else ReplayRun(p, Completed(p, Replay, w, calls[0], live(calls[0]), true, true).0, calls[1..], live)
  }

  ghost function ReplayAnswers(p: Setup, w: World, calls: seq<Call>, live: Call -> Outcome): seq<Outcome>
    decreases |calls|
  {
    if calls == [] then []
    else
      var (w', answer) := Completed(p, Replay, w, calls[0], live(calls[0]), true, true);
      [answer] + ReplayAnswers(p, w', calls[1..], live)
  }

  function HitLine(p: Setup, c: Call): LedgerLine {
    LedgerLine("hit", p.surface, p.key(c))
  }

  function HitLines(p: Setup, calls: seq<Call>): seq<LedgerLine> {
    if calls == [] then [] else [HitLine(p, calls[0])] + HitLines(p, calls[1..])
  }

  lemma {:induction false} HitStep(p: Setup, w: World, c: Call, live: Outcome)
    requires Lookup(w.mem, p.key(c)).Some?
    ensures Completed(p, Replay, w, c, live, true, true)
         == (w.(tally := Tally(w.tally.hits + 1, w.tally.misses), ledger := w.ledger + [HitLine(p, c)]),
             Lookup(w.mem, p.key(c)).value)
  {
    hide Lookup;
  }

  /** Replaying calls that were all recorded: each is answered from the document, the provider
      is never asked, the document is not touched, and the ledger grows by one hit per call. */
  lemma {:induction false} ReplayServes(p: Setup, w: World, calls: seq<Call>, live: Call -> Outcome)
    requires forall i :: 0 <= i < |calls| ==> Lookup(w.mem, p.key(calls[i])).Some?
    ensures var w' := ReplayRun(p, w, calls, live);
      && w'.asked == w.asked && w'.mem == w.mem && w'.disk == w.disk
      && w'.tally == Tally(w.tally.hits + |calls|, w.tally.misses)
      && w'.ledger == w.ledger + HitLines(p, calls)
    ensures var answers := ReplayAnswers(p, w, calls, live);
      |answers| == |calls| && forall i :: 0 <= i < |calls| ==> Some(answers[i]) == Lookup(w.mem, p.key(calls[i]))
    decreases |calls|
  {
    hide Completed, Lookup;
    if calls != [] {
      HitStep(p, w, calls[0], live(calls[0]));
      var w1 := Completed(p, Replay, w, calls[0], live(calls[0]), true, true).0;
      assert forall i :: 0 <= i < |calls| - 1 ==> calls[1..][i] == calls[i + 1];
      ReplayServes(p, w1, calls[1..], live);
      assert w.ledger + [HitLine(p, calls[0])] + HitLines(p, calls[1..])
          == w.ledger + ([HitLine(p, calls[0])] + HitLines(p, calls[1..]));
    }
  }

  /** A call that was never recorded is refused out loud: an error, a miss in the ledger, and
      still no question to the provider. */
  lemma {:induction false} ReplayRefuses(p: Setup, w: World, c: Call, live: Outcome)
    requires Lookup(w.mem, p.key(c)).None?
    ensures var (w', answer) := Completed(p, Replay, w, c, live, true, true);
      && answer.Err? && answer.error == CassetteMiss(MissFor(p, w.mem, c))
      && (if p.sha(c.system) in w.mem.prompts then answer.error.miss.Diagnosed?
          else answer.error.miss == PromptNeverRecorded(p.sha(c.system)))
      && w'.asked == w.asked && w'.mem == w.mem &&
        w'.disk == w.disk
      && w'.ledger == w.ledger + [LedgerLine("miss", p.surface, p.key(c))]
      && LedgerTally(w'.ledger) == Tally(LedgerTally(w.ledger).hits, LedgerTally(w.ledger).misses + 1)
  {
    assert MissFor(p, w.mem, c).PromptNeverRecorded? ==> p.sha(c.system) !in w.mem.prompts;
    hide Lookup, LedgerTally, Explains, Recorded;
    var line := LedgerLine("miss", p.surface, p.key(c));
    assert "miss" != "hit" by { assert "miss"[0] != "hit"[0]; }
    TallyConcat(w.ledger, [line]);
    TallyOne(line);
  }

  // ----- the ledger -----

  function LedgerTally(lines: seq<LedgerLine>): Tally {
    if lines == [] then Tally(0, 0)
    else
      var t := LedgerTally(lines[1..]);
      if lines[0].outcome == "hit" then Tally(t.hits + 1, t.misses) else Tally(t.hits, t.misses + 1)
  }

  /** `read_ledger`: an outcome this build does not know counts as a miss. */
  method ReadLedger(lines: seq<LedgerLine>) returns (tally: Tally)
    ensures tally == LedgerTally(lines)
  {
    tally := Tally(0, 0);
    var i := 0;
    assert lines[0..] == lines;
    while i < |lines|
      invariant i <= |lines|
      invariant var t := LedgerTally(lines[i..]);
        Tally(tally.hits + t.hits, tally.misses + t.misses) == LedgerTally(lines)
    {
      assert lines[i..][1..] == lines[i + 1..];
      if lines[i].outcome == "hit" {
        tally := tally.(hits := tally.hits + 1);
      } else {
        tally := tally.(misses := tally.misses + 1);
      }
      i := i + 1;
    }
  }

  lemma {:induction false} TallyOne(line: LedgerLine)
    ensures LedgerTally([line]) == if line.outcome == "hit" then Tally(1, 0) else Tally(0, 1)
  {
    assert [line][1..] == [];
  }

  lemma {:induction false} TallyConcat(a: seq<LedgerLine>, b: seq<LedgerLine>)
    ensures var s, t := LedgerTally(a), LedgerTally(b);
      LedgerTally(a + b) == Tally(s.hits + t.hits, s.misses + t.misses)
  {
    if a == [] {
      assert a + b == b;
    } else {
      TallyConcat(a[1..], b);
      assert (a + b)[1..] == a[1..] + b;
    }
  }

  lemma {:induction false} HitLinesTally(p: Setup, calls: seq<Call>)
    ensures LedgerTally(HitLines(p, calls)) == Tally(|calls|, 0)
  {
    if calls != [] {
      HitLinesTally(p, calls[1..]);
      TallyConcat([HitLine(p, calls[0])], HitLines(p, calls[1..]));
      TallyOne(HitLine(p, calls[0]));
    }
  }

  // ----- record, then replay -----

  ghost function Opened(file: Option<Document>, ledger: seq<LedgerLine>): World {
    World(if file.Some? then file.value else FRESH, file, Tally(0, 0), ledger, 0)
  }

  lemma {:induction false} OpenedAgrees(file: Option<Document>, ledger: seq<LedgerLine>)
    ensures Agree(Opened(file, ledger))
  {
  }

  /** What a recording leaves for a key: what the file already showed, else the first outcome
      seen live that may be stored. */
  ghost function Recalled(p: Setup, file: Option<Document>, es: seq<Event>, k: string): Option<Outcome> {
    if LookupDisk(file, k).Some? then LookupDisk(file, k) else FirstKept(p, es, k)
  }

  /** Record into a file this build opens, with every write succeeding, then replay calls that were
      recorded, in any order and any number of times: the file opens for replay, each answer is the
      first storable outcome seen live, the provider is never asked, and the ledger read back shows one
      more hit per call and no new miss. */
  lemma {:induction false} RecordThenReplay(p: Setup, file: Option<Document>, es: seq<Event>, calls: seq<Call>,
      live: Call -> Outcome, ledger: seq<LedgerLine>)
    requires Opens(file, Record, true) && AllWritten(es)
    requires forall i :: 0 <= i < |calls| ==> Recalled(p, file, es, p.key(calls[i])).Some?
    ensures var recorded := Run(p, Opened(file, []), es).disk;
      && (calls != [] ==> Opens(recorded, Replay, true))
      && var w := Opened(recorded, ledger);
      && var answers := ReplayAnswers(p, w, calls, live);
      && |answers| == |calls|
      && (forall i :: 0 <= i < |calls| ==> Some(answers[i]) == Recalled(p, file, es, p.key(calls[i])))
      && (forall i :: 0 <= i < |calls| && LookupDisk(file, p.key(calls[i])).None? ==>
            exists j :: FirstStored(p, es, p.key(calls[i]), j) && es[j].live == answers[i])
      && var w' := ReplayRun(p, w, calls, live);
      && w'.asked == 0 && w'.disk == recorded && w'.ledger == ledger + HitLines(p, calls)
      && LedgerTally(w'.ledger) == Tally(LedgerTally(ledger).hits + |calls|, LedgerTally(ledger).misses)
  {
    hide Run, Agree, ReplayRun, ReplayAnswers, FirstKept, LedgerTally, Lookup, AllWritten, HitLines;
    OpenedAgrees(file, []);
    RestartsAccepted(p, Opened(file, []), es);
    var recorded := Run(p, Opened(file, []), es).disk;
    var w := Opened(recorded, ledger);
    OpenedAgrees(recorded, ledger);
    forall i | 0 <= i < |calls|
      ensures Lookup(w.mem, p.key(calls[i])) == Recalled(p, file, es, p.key(calls[i])) && recorded.Some?
      ensures LookupDisk(file, p.key(calls[i])).None? ==> exists j ::
        FirstStored(p, es, p.key(calls[i]), j) && Some(es[j].live) == Recalled(p, file, es, p.key(calls[i]))
    {
      RecordingKeepsFirst(p, Opened(file, []), es, p.key(calls[i]));
      FirstKeptIs(p, es, p.key(calls[i]), Recalled(p, file, es, p.key(calls[i])).value);
    }
    assert calls != [] ==> recorded.Some? by {
      if calls != [] { assert Recalled(p, file, es, p.key(calls[0])).Some?; assert recorded.Some?; }
    }
    ReplayServes(p, w, calls, live);
    HitLinesTally(p, calls);
    TallyConcat(ledger, HitLines(p, calls));
  }
}
