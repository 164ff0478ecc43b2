/** The record/replay cassette: a document kept in memory and on disk, a ledger, and the
    provider that answers from it. */
module Cassettes {
  import opened Wrappers

  // ----- what is stored -----

  datatype Miss = WriteFailed | PromptNeverRecorded(sha: string) | Diagnosed(why: Diagnosis)

  datatype Diagnosis =
    | NothingForSurface | PromptChanged | ToolsChanged
    | IntentNeverRecorded | DivergedAt(index: nat) | TurnNeverRecorded

  datatype ProviderError =
    | Http(status: nat, body: string) | Auth(text: string) | RateLimit(text: string)
    | Parse(text: string) | Request(text: string) | CassetteMiss(miss: Miss)

  type Outcome = Result<string, ProviderError>

  datatype RecordedRejection = RecordedRejection(kind: string, message: string, status: Option<nat>)

  /** `RecordedRejection::of`: only three variants can be stored. */
  function Of(e: ProviderError): Option<RecordedRejection> {
    match e
    case Request(m) => Some(RecordedRejection("request", m, None))
    case Parse(m) => Some(RecordedRejection("parse", m, None))
    case Http(status, body) => Some(RecordedRejection("http", body, Some(status)))
    case _ => None
  }

  function ToError(r: RecordedRejection): ProviderError {
    if r.kind == "parse" then Parse(r.message)
    else if r.kind == "http" then Http(if r.status.Some? then r.status.value else 500, r.message)
    else Request(r.message)
  }

  /** A stored refusal comes back as the same variant, message and status. */
  lemma {:induction false} RejectionRoundTrip(e: ProviderError)
    requires Of(e).Some?
    ensures ToError(Of(e).value) == e
  {
    assert "request" != "parse" && "request" != "http" && "http" != "parse" by {
      assert "request"[0] != "parse"[0] && "request"[0] != "http"[0] && "http"[0] != "parse"[0];
    }
  }

  datatype Fingerprint = Fingerprint(system: string, tools: string, maxTokens: nat, messages: seq<string>)

  datatype Entry = Entry(surface: string, output: Option<string>, rejection: Option<RecordedRejection>,
                         fingerprint: Option<Fingerprint>)

  datatype Document = Document(version: nat, surfaces: set<string>, prompts: set<string>, entries: map<string, Entry>)

  const CASSETTE_VERSION: nat := 2

  const FRESH := Document(CASSETTE_VERSION, {}, {}, map[])

  /** The recorded outcome of an entry; an entry with neither part is invisible. */
  function Visible(e: Entry): Option<Outcome> {
    match (e.output, e.rejection)
    case (Some(c), _) => Some(Ok(c))
    case (None, Some(r)) => Some(Err(ToError(r)))
    case (None, None) => None
  }

  function Lookup(d: Document, key: string): Option<Outcome> {
    if key in d.entries then Visible(d.entries[key]) else None
  }

  function LookupDisk(file: Option<Document>, key: string): Option<Outcome> {
    if file.Some? then Lookup(file.value, key) else None
  }

  // ----- requests -----

  datatype Call = Call(system: string, messages: seq<string>, tools: string, maxTokens: nat)

  /** The provider's fixed parts: its surface, the call key, the digest, and which errors are a
      rejected tool call. */
  datatype Setup = Setup(surface: string, key: Call -> string, sha: string -> string, invalid: ProviderError -> bool) {
    function FingerprintOf(c: Call): Fingerprint {
      Fingerprint(sha(c.system), sha(c.tools), c.maxTokens,
        seq(|c.messages|, i requires 0 <= i < |c.messages| => sha(c.messages[i])))
    }

    /** `recordable_rejection`. */
    function Recordable(e: ProviderError): Option<RecordedRejection> {
      if !invalid(e) then None else Of(e)
    }

    /** The entry a live outcome leaves behind, if it may be stored at all. */
    function EntryFor(c: Call, live: Outcome): Option<Entry> {
      match live
      case Ok(output) => Some(Entry(surface, Some(output), None, Some(FingerprintOf(c))))
      case Err(e) =>
        match Recordable(e)
        case None => None
        case Some(r) => Some(Entry(surface, None, Some(r), Some(FingerprintOf(c))))
    }

    /** What may be stored: a completion, or one of three errors when it is a rejected tool call. */
    predicate Keeps(live: Outcome) {
      live.Ok? || (invalid(live.error) && (live.error.Request? || live.error.Parse? || live.error.Http?))
    }
  }

  /** What is stored for an outcome looks up as that outcome. */
  lemma {:induction false} StoredIsSeen(p: Setup, c: Call, live: Outcome)
    ensures p.EntryFor(c, live).Some? <==> p.Keeps(live)
    ensures p.Keeps(live) ==> Visible(p.EntryFor(c, live).value) == Some(live)
  {
    if live.Err? && p.Recordable(live.error).Some? {
      hide ToError, Of;
      RejectionRoundTrip(live.error);
    }
  }

  // ----- explaining a miss -----

  /** Index of the first message that differs; none when one list is a prefix of the other. */
  method FirstDivergence(a: Fingerprint, b: Fingerprint) returns (at: Option<nat>)
    ensures at == Divergence(a, b)
  {
    hide Divergence;
    var i := 0;
    while i < |a.messages| && i < |b.messages| && a.messages[i] == b.messages[i]
      invariant i <= |a.messages| && i <= |b.messages|
      invariant forall j :: 0 <= j < i ==> a.messages[j] == b.messages[j]
    {
      i := i + 1;
    }
    DivergenceIs(a, b, i);
    at := if i < |a.messages| && i < |b.messages| then Some(i) else None;
  }

  ghost predicate DivergesAt(a: Fingerprint, b: Fingerprint, i: nat) {
    i < |a.messages| && i < |b.messages| && a.messages[i] != b.messages[i]
    && forall j :: 0 <= j < i ==> a.messages[j] == b.messages[j]
  }

  ghost function Divergence(a: Fingerprint, b: Fingerprint): Option<nat> {
    if exists i: nat :: DivergesAt(a, b, i) then
      var i: nat :| DivergesAt(a, b, i); Some(i)
    else None
  }

  lemma {:induction false} DivergenceIs(a: Fingerprint, b: Fingerprint, i: nat)
    requires i <= |a.messages| && i <= |b.messages|
    requires forall j :: 0 <= j < i ==> a.messages[j] == b.messages[j]
    requires i < |a.messages| && i < |b.messages| ==> a.messages[i] != b.messages[i]
    ensures Divergence(a, b) == if i < |a.messages| && i < |b.messages| then Some(i) else None
  {
    if i < |a.messages| && i < |b.messages| {
      assert DivergesAt(a, b, i);
    }
  }

  /** The fingerprints recorded for one surface. */
  function Recorded(d: Document, surface: string): set<Fingerprint> {
    set k | k in d.entries && d.entries[k].surface == surface &&
      d.entries[k].fingerprint.Some? :: d.entries[k].fingerprint.value
  }

  ghost predicate Matches(f: Fingerprint, want: Fingerprint) { f.system == want.system && f.tools == want.tools }

  ghost predicate Deepest(recorded: set<Fingerprint>, want: Fingerprint, i: nat) {
    && (exists f :: f in recorded && Matches(f, want) && Divergence(f, want) == Some(i))
    && forall f :: f in recorded && Matches(f, want) && Divergence(f, want).Some? ==> Divergence(f, want).value <= i
  }

  /** Which explanation the recording leads to. What each says of the recording, and when that is true, is the
      subject of CassetteMisses. */
  ghost predicate Explains(recorded: set<Fingerprint>, want: Fingerprint, why: Diagnosis) {
    match why
    case NothingForSurface => recorded == {}
    case PromptChanged => recorded != {} && forall f :: f in recorded ==> f.system != want.system
    case ToolsChanged =>
      && (exists f :: f in recorded && f.system == want.system)
      && forall f :: f in recorded ==> f.tools != want.tools
    case IntentNeverRecorded => SomeSystem(recorded, want) && Deepest(recorded, want, 0)
    case DivergedAt(i) => i > 0 && SomeSystem(recorded, want) && Deepest(recorded, want, i)
    case TurnNeverRecorded =>
      SomeSystem(recorded, want) && forall f :: f in recorded && Matches(f, want) ==> Divergence(f, want) == None
  }

  /** Some recorded call has the prompt and some recorded call has the tools. */
  ghost predicate SomeSystem(recorded: set<Fingerprint>, want: Fingerprint) {
    (exists f :: f in recorded && f.system == want.system) && (exists f :: f in recorded && f.tools == want.tools)
  }

  /** Exactly one explanation applies. */
  lemma {:induction false} ExplanationUnique(recorded: set<Fingerprint>, want: Fingerprint, a: Diagnosis, b: Diagnosis)
    requires Explains(recorded, want, a) && Explains(recorded, want, b)
    ensures a == b
  {
    hide Divergence;
  }

  /** `diagnose_miss`: from the most general cause to the deepest matching conversation. */
  method DiagnoseMiss(d: Document, surface: string, want: Fingerprint) returns (why: Diagnosis)
    ensures Explains(Recorded(d, surface), want, why)
  {
    hide Divergence, Recorded;
    var recorded := Recorded(d, surface);
    if recorded == {} {
      return NothingForSurface;
    }
    if forall f | f in recorded :: f.system != want.system {
      return PromptChanged;
    }
    if forall f | f in recorded :: f.tools != want.tools {
      return ToolsChanged;
    }
    var deepest: Option<nat> := None;
    var rest := recorded;
    while rest != {}
      invariant rest <= recorded
      invariant deepest.Some? ==>
        exists f :: f in recorded && Matches(f, want) && Divergence(f, want) == deepest
      invariant forall f :: f in recorded - rest && Matches(f, want) && Divergence(f, want).Some? ==>
        deepest.Some? && Divergence(f, want).value <= deepest.value
      decreases |rest|
    {
      var f :| f in rest;
      rest := rest - {f};
      if f.system == want.system && f.tools == want.tools {
        var at := FirstDivergence(f, want);
        if at.Some? && (deepest.None? || deepest.value < at.value) {
          deepest := at;
        }
      }
    }
    why := match deepest case None => TurnNeverRecorded
                         case Some(i) => if i == 0 then IntentNeverRecorded else DivergedAt(i);
  }

  /** The explanation attached to a replay miss. */
  ghost function MissFor(p: Setup, d: Document, c: Call): Miss {
    if p.sha(c.system) !in d.prompts then PromptNeverRecorded(p.sha(c.system))
    else
      Explained(Recorded(d, p.surface), p.FingerprintOf(c));
      var why :| Explains(Recorded(d, p.surface), p.FingerprintOf(c), why);
      Diagnosed(why)
  }

  lemma {:induction false} Explained(recorded: set<Fingerprint>, want: Fingerprint)
    ensures exists why :: Explains(recorded, want, why)
  {
    hide Divergence;
    var divs := set f | f in recorded && Matches(f, want) && Divergence(f, want).Some? :: Divergence(f, want).value;
    assert forall g :: g in recorded && Matches(g, want) && Divergence(g, want).Some? ==>
      Divergence(g, want).value in divs;
    if recorded == {} {
      assert Explains(recorded, want, NothingForSurface);
    } else if forall f :: f in recorded ==> f.system != want.system {
      assert Explains(recorded, want, PromptChanged);
    } else if forall f :: f in recorded ==> f.tools != want.tools {
      assert Explains(recorded, want, ToolsChanged);
    } else if divs == {} {
      assert Explains(recorded, want, TurnNeverRecorded);
    } else {
      var m := Greatest(divs);
      var f :| f in recorded && Matches(f, want) && Divergence(f, want).Some? && Divergence(f, want).value == m;
      assert Deepest(recorded, want, m);
      assert Explains(recorded, want, if m == 0 then IntentNeverRecorded else DivergedAt(m));
    }
  }

  lemma {:induction false} Greatest(s: set<nat>) returns (m: nat)
    requires s != {}
    ensures m in s && forall x :: x in s ==> x <= m
    decreases |s|
  {
    var a :| a in s;
    m := a;
    if s != {a} {
      var n := Greatest(s - {a});
      assert forall x :: x in s ==> x == a || x in s - {a};
      if n > a { m := n; }
    }
  }

  // ----- one call -----

  datatype Mode = Record | Replay

  datatype Tally = Tally(hits: nat, misses: nat)

  datatype LedgerLine = LedgerLine(outcome: string, surface: string, key: string)

  /** A cassette with the files beside it, and how often the inner provider was asked. */
  datatype World = World(mem: Document, disk: Option<Document>, tally: Tally, ledger: seq<LedgerLine>, asked: nat)

  function Noted(w: World, mode: Mode, outcome: string, surface: string, key: string, appendOk: bool): World {
    var tally := if outcome == "hit" then w.tally.(hits := w.tally.hits + 1)
      else w.tally.(misses := w.tally.misses + 1);
    w.(tally := tally,
       ledger := if mode == Replay && appendOk then w.ledger + [LedgerLine(outcome, surface, key)] else w.ledger)
  }

  /** The document with one more entry, stamped with this version. */
  function WithEntry(d: Document, key: string, surface: string, prompt: string, e: Entry): Document {
    Document(CASSETTE_VERSION, d.surfaces + {surface}, d.prompts + {prompt}, d.entries[key := e])
  }

  /** Write through, or roll the entry back when the write fails. */
  function Stored(w: World, key: string, surface: string, prompt: string, e: Entry, persistOk: bool): World {
    var mem := WithEntry(w.mem, key, surface, prompt, e);
    if persistOk then w.(mem := mem, disk := Some(mem))
    else w.(mem := mem.(entries := mem.entries - {key}))
  }

  /** One `complete` call: the new world and the answer. `live` is what the inner provider
      answers if it is asked now. */
  ghost function Completed(p: Setup, mode: Mode, w: World, c: Call, live: Outcome, persistOk: bool,
      appendOk: bool): (World, Outcome) {
    var key := p.key(c);
    match Lookup(w.mem, key)
    case Some(o) => (Noted(w, mode, "hit", p.surface, key, appendOk), o)
    case None =>
      if mode == Replay then
        (Noted(w, mode, "miss", p.surface, key, appendOk), Err(CassetteMiss(MissFor(p, w.mem, c))))
      else
        var w1 := w.(asked := w.asked + 1);
        match p.EntryFor(c, live)
        case None => (w1, live)
        case Some(e) =>
          var w2 := Stored(w1, key, p.surface, p.sha(c.system), e, persistOk);
          (w2, if persistOk then live else Err(CassetteMiss(WriteFailed)))
  }

  // ----- the objects -----

  /** The two files next to each other. */
  class Disk {
    var file: Option<Document>
    var ledger: seq<LedgerLine>

    constructor (file: Option<Document>, ledger: seq<LedgerLine>)
      ensures this.file == file && this.ledger == ledger
    {
      this.file := file;
      this.ledger := ledger;
    }
  }

  datatype OpenError = UnsupportedVersion(found: nat) | Missing | LedgerNotWritable

  /** What `open` accepts: a file this build understands, if any; a replay needs one and a ledger it can
      write. */
  predicate Opens(file: Option<Document>, mode: Mode, ledgerWritable: bool) {
    (file.Some? ==> file.value.version <= CASSETTE_VERSION) && (mode == Replay ==> file.Some? && ledgerWritable)
  }

  class Cassette {
    const disk: Disk
    const mode: Mode
    var state: Document
    var tally: Tally

    constructor (disk: Disk, mode: Mode, state: Document)
      ensures this.disk == disk && this.mode == mode && this.state == state && tally == Tally(0, 0)
    {
      this.disk := disk;
      this.mode := mode;
      this.state := state;
      tally := Tally(0, 0);
    }

    /** `open`: resume the file when there is one; a replay needs one and a writable ledger. */
    static method Open(disk: Disk, mode: Mode, ledgerWritable: bool) returns (r: Result<Cassette, OpenError>)
      ensures r.Ok? ==> fresh(r.value) && r.value.disk == disk && r.value.mode == mode && r.value.tally == Tally(0, 0)
      ensures r.Ok? ==> r.value.state == (if disk.file.Some? then disk.file.value else FRESH)
      ensures r.Ok? <==> Opens(disk.file, mode, ledgerWritable)
      ensures r == Err(Missing) <==> disk.file.None? && mode == Replay
    {
      var state := FRESH;
      if disk.file.Some? {
        state := disk.file.value;
        if state.version > CASSETTE_VERSION {
          return Err(UnsupportedVersion(state.version));
        }
      } else if mode == Replay {
        return Err(Missing);
      }
      if mode == Replay && !ledgerWritable {
        return Err(LedgerNotWritable);
      }
      var c := new Cassette(disk, mode, state);
      r := Ok(c);
    }

    ghost function Now(asked: nat): World
      reads this, disk
    {
      World(state, disk.file, tally, disk.ledger, asked)
    }

    /** `persist`: the whole document, or nothing. */
    method Persist(writes: bool) returns (ok: bool)
      modifies disk`file
      ensures ok == writes && disk.file == if writes then Some(state) else old(disk.file)
    {
      if writes {
        disk.file := Some(state);
      }
      ok := writes;
    }

    /** `note`: the tally always, the ledger under replay. */
    method Note(outcome: string, surface: string, key: string, appends: bool)
      modifies this`tally, disk`ledger
      ensures forall n: nat :: Now(n) == Noted(old(Now(n)), mode, outcome, surface, key, appends)
    {
      if outcome == "hit" {
        tally := tally.(hits := tally.hits + 1);
      } else {
        tally := tally.(misses := tally.misses + 1);
      }
      if mode != Replay {
        return;
      }
      if appends {
        disk.ledger := disk.ledger + [LedgerLine(outcome, surface, key)];
      }
    }

    /** `store_entry`: insert, persist, and take the entry back out if it never reached disk. */
    method StoreEntry(key: string, surface: string, prompt: string, e: Entry, writes: bool) returns (ok: bool)
      modifies this`state, disk`file
      ensures ok == writes
      ensures forall n: nat :: Now(n) == Stored(old(Now(n)), key, surface, prompt, e, writes)
    {
      state := state.(surfaces := state.surfaces + {surface}, prompts := state.prompts + {prompt});
      state := state.(version := CASSETTE_VERSION);
      state := state.(entries := state.entries[key := e]);
      ok := Persist(writes);
      if !ok {
        state := state.(entries := state.entries - {key});
      }
    }

    /** `complete`: a recorded outcome is a hit; a replay never asks; a recording asks once and
        keeps what may be kept. The inner provider's next answer is `live`. */
    method Complete(p: Setup, c: Call, live: Outcome, writes: bool, appends: bool) returns (answer: Outcome, asks: bool)
      modifies this`state, this`tally, disk
      ensures forall n: nat ::
        (Now(n + if asks then 1 else 0), answer) == Completed(p, mode, old(Now(n)), c, live, writes, appends)
    {
      hide Lookup, Recorded, Divergence, Stored, Noted;
      var key := p.key(c);
      asks := false;
      var found := Lookup(state, key);
      if found.Some? {
        Note("hit", p.surface, key, appends);
        return found.value, asks;
      }
      if mode == Replay {
        Note("miss", p.surface, key, appends);
        var sha := p.sha(c.system);
        if sha !in state.prompts {
          return Err(CassetteMiss(PromptNeverRecorded(sha))), asks;
        }
        var why := DiagnoseMiss(state, p.surface, p.FingerprintOf(c));
        assert MissFor(p, old(state), c) == Diagnosed(why) by {
          OneMiss(p, old(state), c, why);
        }
        return Err(CassetteMiss(Diagnosed(why))), asks;
      }
      asks := true;
      var e := p.EntryFor(c, live);
      if e.Some? {
        var ok := StoreEntry(key, p.surface, p.sha(c.system), e.value, writes);
        if !ok {
          return Err(CassetteMiss(WriteFailed)), asks;
        }
      }
      answer := live;
    }
  }

  lemma {:induction false} OneMiss(p: Setup, d: Document, c: Call, why: Diagnosis)
    requires p.sha(c.system) in d.prompts && Explains(Recorded(d, p.surface), p.FingerprintOf(c), why)
    ensures MissFor(p, d, c) == Diagnosed(why)
  {
    hide Explains, Recorded;
    var m := MissFor(p, d, c);
    assert Explains(Recorded(d, p.surface), p.FingerprintOf(c), m.why);
    ExplanationUnique(Recorded(d, p.surface), p.FingerprintOf(c), m.why, why);
  }
}
