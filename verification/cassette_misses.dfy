/** What the explanation of a replay miss tells the reader, and exactly when that is true. */
module CassetteMisses {
  import opened Wrappers
  import opened Cassettes
  import opened CassetteRuns

  /** Some recorded call has both the prompt and the tools. */
  ghost predicate SameCall(recorded: set<Fingerprint>, want: Fingerprint) {
    exists f :: f in recorded && Matches(f, want)
  }

  /** One of the two conversations is the start of the other. */
  ghost predicate RunsAlong(f: Fingerprint, want: Fingerprint) {
    forall i :: 0 <= i < |f.messages| && i < |want.messages| ==> f.messages[i] == want.messages[i]
  }

  lemma {:induction false} RunsAlongIff(f: Fingerprint, want: Fingerprint)
    ensures Divergence(f, want) == None <==> RunsAlong(f, want)
  {
    if !RunsAlong(f, want) {
      var i := FirstApart(f, want, 0);
      assert DivergesAt(f, want, i);
    } else {
      assert forall i: nat :: !DivergesAt(f, want, i);
    }
  }

  lemma {:induction false} FirstApart(f: Fingerprint, want: Fingerprint, from: nat) returns (i: nat)
    requires !RunsAlong(f, want) && from <= |f.messages| && from <= |want.messages|
    requires forall j :: 0 <= j < from ==> f.messages[j] == want.messages[j]
    ensures DivergesAt(f, want, i)
    decreases |f.messages| - from
  {
    if from < |f.messages| && from < |want.messages| && f.messages[from] == want.messages[from] {
      i := FirstApart(f, want, from + 1);
    } else {
      i := from;
    }
  }

  /** Two explanations say that the prompt and the tools match. For a new intent some recorded call indeed
      has both. For a new turn that is so exactly when a recorded call with both starts the conversation or
      goes on from it; it is not so exactly when each was recorded, but never by one call. */
  lemma {:induction false} MatchClaimIff(recorded: set<Fingerprint>, want: Fingerprint)
    ensures Explains(recorded, want, IntentNeverRecorded) ==> SameCall(recorded, want)
    ensures Explains(recorded, want, TurnNeverRecorded) ==>
      (SameCall(recorded, want) <==> exists f :: f in recorded && Matches(f, want) && RunsAlong(f, want))
    ensures Explains(recorded, want, TurnNeverRecorded) && !SameCall(recorded, want) <==>
      SomeSystem(recorded, want) && !SameCall(recorded, want)
  {
    hide Divergence, RunsAlong, Matches;
    forall f | f in recorded ensures Divergence(f, want) == None <==> RunsAlong(f, want) {
      RunsAlongIff(f, want);
    }
  }

  /** The first `n` messages of the wanted conversation were recorded with this prompt and these tools. */
  ghost predicate AgreesTo(f: Fingerprint, want: Fingerprint, n: nat) {
    Matches(f, want) && n <= |f.messages| && n <= |want.messages| && forall i :: 0 <= i < n ==>
      f.messages[i] == want.messages[i]
  }

  ghost predicate Reached(recorded: set<Fingerprint>, want: Fingerprint, n: nat) {
    exists f :: f in recorded && AgreesTo(f, want, n)
  }

  /** A recorded conversation, longer than `n` messages, of which one starts the other with the wanted one. */
  ghost predicate LongAlong(recorded: set<Fingerprint>, want: Fingerprint, n: nat) {
    exists f :: f in recorded && Matches(f, want) && RunsAlong(f, want) && |f.messages| > n
  }

  // ----- the conversation -----

  lemma {:induction false} AlongAgrees(f: Fingerprint, want: Fingerprint, n: nat)
    requires Matches(f, want) && RunsAlong(f, want) && n <= |f.messages| && n <= |want.messages|
    ensures AgreesTo(f, want, n)
  {
  }

  lemma {:induction false} DivergedAgrees(f: Fingerprint, want: Fingerprint, i: nat)
    requires Matches(f, want) && Divergence(f, want) == Some(i)
    ensures AgreesTo(f, want, i) && !AgreesTo(f, want, i + 1) && i < |want.messages|
  {
  }

  /** The deepest divergence is where the recording stops agreeing, exactly when no longer recorded
      conversation starts the wanted one or goes on from it. */
  lemma {:induction false} DeepestIff(recorded: set<Fingerprint>, want: Fingerprint, i: nat)
    requires Deepest(recorded, want, i)
    ensures Reached(recorded, want, i)
    ensures !Reached(recorded, want, i + 1) <==> !LongAlong(recorded, want, i)
  {
    hide Divergence, RunsAlong, Matches, AgreesTo;
    var g :| g in recorded && Matches(g, want) && Divergence(g, want) == Some(i);
    DivergedAgrees(g, want, i);
    if LongAlong(recorded, want, i) {
      var f :| f in recorded && Matches(f, want) && RunsAlong(f, want) && |f.messages| > i;
      AlongAgrees(f, want, i + 1);
    }
    if Reached(recorded, want, i + 1) {
      var f :| f in recorded && AgreesTo(f, want, i + 1);
      StillAlong(f, want, i);
    }
  }

  lemma {:induction false} StillAlong(f: Fingerprint, want: Fingerprint, i: nat)
    requires AgreesTo(f, want, i + 1)
    requires Matches(f, want) && Divergence(f, want).Some? ==> Divergence(f, want).value <= i
    ensures Matches(f, want) && RunsAlong(f, want) && |f.messages| > i
  {
    assert Divergence(f, want).None?;
    RunsAlongIff(f, want);
  }

  // ----- what is claimed, and when it is true -----

  /** What an explanation of a missed call says. */
  ghost predicate Claim(p: Setup, d: Document, c: Call, why: Diagnosis) {
    var recorded, want := Recorded(d, p.surface), p.FingerprintOf(c);
    match why
    case NothingForSurface => forall k :: k in d.entries ==> d.entries[k].surface != p.surface
    case PromptChanged => forall c': Call :: c'.system == c.system ==> Lookup(d, p.key(c')) == None
    case ToolsChanged => forall c': Call :: c'.tools == c.tools ==> Lookup(d, p.key(c')) == None
    case IntentNeverRecorded => SameCall(recorded, want) && !Reached(recorded, want, 1)
    case DivergedAt(i) => Reached(recorded, want, i) && !Reached(recorded, want, i + 1)
    case TurnNeverRecorded =>
      SameCall(recorded, want) && forall f :: f in recorded && Matches(f, want) ==> f.messages != want.messages
  }

  /** When an explanation that is given misleads: something was recorded that the comparison does not see. */
  ghost predicate Misleads(p: Setup, d: Document, c: Call, why: Diagnosis) {
    var recorded, want := Recorded(d, p.surface), p.FingerprintOf(c);
    match why
    case NothingForSurface =>
      exists k :: k in d.entries && d.entries[k].surface == p.surface && d.entries[k].fingerprint.None?
    case PromptChanged => exists c': Call :: c'.system == c.system && Unlabelled(p, d, c')
    case ToolsChanged => exists c': Call :: c'.tools == c.tools && Unlabelled(p, d, c')
    case IntentNeverRecorded => LongAlong(recorded, want, 0)
    case DivergedAt(i) => LongAlong(recorded, want, i)
    case TurnNeverRecorded => !SameCall(recorded, want) || exists n :: want.(maxTokens := n) in recorded
  }

  /** A call that is answered from an entry without a fingerprint. */
  ghost predicate Unlabelled(p: Setup, d: Document, c: Call) {
    Lookup(d, p.key(c)).Some? && d.entries[p.key(c)].fingerprint.None?
  }

  /** What stands under the key of a call is of this surface, and its fingerprint, if any, is the call's. */
  ghost predicate Labelled(p: Setup, d: Document) {
    forall c :: p.key(c) in d.entries ==>
      var e := d.entries[p.key(c)];
      e.surface == p.surface && (e.fingerprint.Some? ==> e.fingerprint.value == p.FingerprintOf(c))
  }

  /** The explanation that is given is true exactly when it does not mislead. */
  lemma {:induction false} ClaimIff(p: Setup, d: Document, c: Call, why: Diagnosis)
    requires Labelled(p, d) && Explains(Recorded(d, p.surface), p.FingerprintOf(c), why)
    ensures Claim(p, d, c, why) <==> !Misleads(p, d, c, why)
  {
    hide Recorded, Divergence, Matches, RunsAlong, AgreesTo, Reached, LongAlong, Labelled, Lookup, Unlabelled;
    var recorded, want := Recorded(d, p.surface), p.FingerprintOf(c);
    match why
    case NothingForSurface => NothingIff(d, p.surface);
    case PromptChanged =>
      forall c': Call | c'.system == c.system ensures Lookup(d, p.key(c')) == None <==> !Unlabelled(p, d, c') {
        NoneLabelled(p, d, c');
      }
    case ToolsChanged =>
      forall c': Call | c'.tools == c.tools ensures Lookup(d, p.key(c')) == None <==> !Unlabelled(p, d, c') {
        NoneLabelled(p, d, c');
      }
    case IntentNeverRecorded => DeepestIff(recorded, want, 0);
    case DivergedAt(i) => DeepestIff(recorded, want, i);
    case TurnNeverRecorded => TurnIff(recorded, want);
  }

  lemma {:induction false} NothingIff(d: Document, surface: string)
    requires Recorded(d, surface) == {}
    ensures (forall k :: k in d.entries ==> d.entries[k].surface != surface) <==>
      !exists k :: k in d.entries && d.entries[k].surface == surface && d.entries[k].fingerprint.None?
  {
    forall k | k in d.entries && d.entries[k].surface == surface ensures d.entries[k].fingerprint.None? {
      InRecorded(d, surface, k);
    }
  }

  lemma {:induction false} InRecorded(d: Document, surface: string, k: string)
    requires k in d.entries && d.entries[k].surface == surface
    ensures d.entries[k].fingerprint.Some? ==> d.entries[k].fingerprint.value in Recorded(d, surface)
  {
  }

  /** A call whose prompt or tools no recorded fingerprint has is answered only without a fingerprint. */
  lemma {:induction false} NoneLabelled(p: Setup, d: Document, c: Call)
    requires Labelled(p, d) && p.FingerprintOf(c) !in Recorded(d, p.surface)
    ensures Lookup(d, p.key(c)) == None <==> !Unlabelled(p, d, c)
  {
    hide Recorded;
    if p.key(c) in d.entries {
      InRecorded(d, p.surface, p.key(c));
    }
  }

  lemma {:induction false} TurnIff(recorded: set<Fingerprint>, want: Fingerprint)
    ensures (forall f :: f in recorded && Matches(f, want) ==> f.messages != want.messages) <==>
      !exists n :: want.(maxTokens := n) in recorded
  {
    if n :| want.(maxTokens := n) in recorded {
      assert Matches(want.(maxTokens := n), want);
    }
    if f :| f in recorded && Matches(f, want) && f.messages == want.messages {
      assert f == want.(maxTokens := f.maxTokens);
    }
  }

  // ----- documents that this build recorded -----

  /** Calls with one key have one fingerprint. */
  ghost predicate KeyFits(p: Setup) {
    forall c, c' :: p.key(c) == p.key(c') ==> p.FingerprintOf(c) == p.FingerprintOf(c')
  }

  ghost predicate OwnEntry(p: Setup, d: Document, c: Call) {
    p.key(c) in d.entries ==>
      d.entries[p.key(c)].surface == p.surface && d.entries[p.key(c)].fingerprint == Some(p.FingerprintOf(c)) &&
      p.sha(c.system) in d.prompts
  }

  /** Every entry a call can find carries that call's fingerprint, and its prompt is listed; no entry of
      the surface lacks a fingerprint. */
  ghost predicate OwnDocument(p: Setup, d: Document) {
    (forall c :: OwnEntry(p, d, c))
    && forall k :: k in d.entries && d.entries[k].surface == p.surface ==> d.entries[k].fingerprint.Some?
  }

  ghost predicate OwnWorld(p: Setup, w: World) {
    OwnDocument(p, w.mem) && (w.disk.Some? ==> OwnDocument(p, w.disk.value))
  }

  lemma {:induction false} OwnFresh(p: Setup)
    ensures OwnDocument(p, FRESH)
  {
  }

  lemma {:induction false} OwnStored(p: Setup, d: Document, c: Call, live: Outcome)
    requires KeyFits(p) && OwnDocument(p, d) && p.EntryFor(c, live).Some?
    ensures var mem := WithEntry(d, p.key(c), p.surface, p.sha(c.system), p.EntryFor(c, live).value);
      OwnDocument(p, mem) && OwnDocument(p, mem.(entries := mem.entries - {p.key(c)}))
  {
    var e := p.EntryFor(c, live).value;
    assert e.surface == p.surface && e.fingerprint == Some(p.FingerprintOf(c));
    var mem := WithEntry(d, p.key(c), p.surface, p.sha(c.system), e);
    var back := mem.(entries := mem.entries - {p.key(c)});
    forall c' ensures OwnEntry(p, mem, c') && OwnEntry(p, back, c') {
      assert OwnEntry(p, d, c');
      if p.key(c') == p.key(c) {
        assert p.FingerprintOf(c') == p.FingerprintOf(c);
        assert p.FingerprintOf(c').system == p.sha(c'.system) == p.sha(c.system);
      }
    }
  }

  lemma {:induction false} OwnStep(p: Setup, w: World, e: Event)
    requires KeyFits(p) && OwnWorld(p, w)
    ensures OwnWorld(p, Step(p, w, e))
  {
    hide OwnDocument, WithEntry, Lookup, KeyFits;
    OwnFresh(p);
    if e.Asks? && p.EntryFor(e.call, e.live).Some? {
      OwnStored(p, w.mem, e.call, e.live);
    }
  }

  /** Whatever writes fail and wherever the process restarts, a recording keeps its document its own. */
  lemma {:induction false} OwnAfter(p: Setup, w: World, es: seq<Event>)
    requires KeyFits(p) && OwnWorld(p, w)
    ensures OwnWorld(p, Run(p, w, es))
    decreases |es|
  {
    hide OwnWorld, Step, KeyFits;
    if es != [] {
      OwnStep(p, w, es[0]);
      OwnAfter(p, Step(p, w, es[0]), es[1..]);
    }
  }

  /** In such a document "every call will miss" and "nothing for this surface" are always true. */
  lemma {:induction false} OwnClaims(p: Setup, d: Document, c: Call, why: Diagnosis)
    requires OwnDocument(p, d) && Explains(Recorded(d, p.surface), p.FingerprintOf(c), why)
    ensures why.NothingForSurface? || why.PromptChanged? || why.ToolsChanged? ==> Claim(p, d, c, why)
  {
    hide Recorded, Divergence, Explains, Claim;
    forall c' ensures !Unlabelled(p, d, c') {
      assert OwnEntry(p, d, c');
    }
    assert Labelled(p, d) by {
      forall c' | p.key(c') in d.entries
        ensures d.entries[p.key(c')].surface == p.surface && (d.entries[p.key(c')].fingerprint.Some? ==>
          d.entries[p.key(c')].fingerprint.value == p.FingerprintOf(c'))
      {
        assert OwnEntry(p, d, c');
      }
    }
    ClaimIff(p, d, c, why);
  }

  /** And a prompt that is not listed was never answered. */
  lemma {:induction false} UnlistedMisses(p: Setup, d: Document, c: Call)
    requires OwnDocument(p, d) && p.sha(c.system) !in d.prompts
    ensures Lookup(d, p.key(c)) == None
  {
    assert OwnEntry(p, d, c);
  }

  /** After any recording that began without a file, or with one of this build: the explanations that speak
      of all calls are true. */
  lemma {:induction false} RecordedClaimsHold(p: Setup, file: Option<Document>, es: seq<Event>, c: Call,
      why: Diagnosis)
    requires KeyFits(p) && (file.Some? ==> OwnDocument(p, file.value))
    requires Run(p, Opened(file, []), es).disk.Some?
    ensures var d := Run(p, Opened(file, []), es).disk.value;
      (MissFor(p, d, c).PromptNeverRecorded? ==>
         forall c': Call :: c'.system == c.system ==> Lookup(d, p.key(c')) == None) &&
      (MissFor(p, d, c) == Diagnosed(why) && (why.NothingForSurface? || why.PromptChanged? || why.ToolsChanged?) ==>
         Claim(p, d, c, why))
  {
    hide OwnDocument, Run, Claim, Lookup, KeyFits, Explains, Recorded;
    OwnFresh(p);
    OwnAfter(p, Opened(file, []), es);
    var d := Run(p, Opened(file, []), es).disk.value;
    if p.sha(c.system) !in d.prompts {
      forall c': Call | c'.system == c.system ensures Lookup(d, p.key(c')) == None {
        UnlistedMisses(p, d, c');
      }
    } else {
      Explained(Recorded(d, p.surface), p.FingerprintOf(c));
      var m := MissFor(p, d, c);
      OwnClaims(p, d, c, m.why);
    }
  }

  // ----- recordings that make an explanation mislead -----

  /** Different calls have different keys, and different texts different digests. */
  ghost predicate IdealDigests(p: Setup) {
    (forall c: Call, c': Call :: p.key(c) == p.key(c') ==> c == c') && forall s, s' :: p.sha(s) == p.sha(s') ==> s == s'
  }

  /** The calls are asked in order, each answered and written. */
  ghost function Answered(calls: seq<Call>): seq<Event> {
    seq(|calls|, i requires 0 <= i < |calls| => Asks(calls[i], Ok("reply"), true))
  }

  ghost function EntryOf(p: Setup, c: Call): Entry {
    Entry(p.surface, Some("reply"), None, Some(p.FingerprintOf(c)))
  }

  ghost function DocumentOf(p: Setup, calls: seq<Call>): Document {
    if calls == [] then FRESH
    else
      var c := calls[|calls| - 1];
      WithEntry(DocumentOf(p, calls[..|calls| - 1]), p.key(c), p.surface, p.sha(c.system), EntryOf(p, c))
  }

  lemma {:induction false} DocumentEntries(p: Setup, calls: seq<Call>)
    requires IdealDigests(p)
    ensures forall c :: p.key(c) in DocumentOf(p, calls).entries ==>
      c in calls && DocumentOf(p, calls).entries[p.key(c)] == EntryOf(p, c)
    ensures forall c :: c in calls ==>
      p.key(c) in DocumentOf(p, calls).entries && p.sha(c.system) in DocumentOf(p, calls).prompts
    ensures forall k :: k in DocumentOf(p, calls).entries ==> exists c :: c in calls && k == p.key(c)
  {
    hide EntryOf;
    if calls != [] {
      var rest, last := calls[..|calls| - 1], calls[|calls| - 1];
      assert calls == rest + [last];
      DocumentEntries(p, rest);
    }
  }

  /** What the document shows for a call, and the fingerprints in it. */
  lemma {:induction false} DocumentShows(p: Setup, calls: seq<Call>)
    requires IdealDigests(p)
    ensures forall c :: Lookup(DocumentOf(p, calls), p.key(c)) == if c in calls then Some(Ok("reply")) else None
    ensures forall f :: f in Recorded(DocumentOf(p, calls), p.surface) <==>
      exists c :: c in calls && f == p.FingerprintOf(c)
  {
    DocumentEntries(p, calls);
    hide DocumentOf, IdealDigests;
    var d := DocumentOf(p, calls);
    forall f | f in Recorded(d, p.surface) ensures exists c :: c in calls && f == p.FingerprintOf(c) {
      var k :| k in d.entries && d.entries[k].surface == p.surface && d.entries[k].fingerprint == Some(f);
      var c :| c in calls && k == p.key(c);
      assert d.entries[p.key(c)] == EntryOf(p, c);
    }
    forall c | c in calls ensures p.FingerprintOf(c) in Recorded(d, p.surface) {
      assert d.entries[p.key(c)] == EntryOf(p, c);
      InRecorded(d, p.surface, p.key(c));
    }
  }

  /** Asking different calls one after the other records them all. */
  lemma {:induction false} AnsweredAll(p: Setup, calls: seq<Call>)
    requires IdealDigests(p) && Distinct(calls)
    ensures var w := Run(p, Opened(None, []), Answered(calls));
      w.mem == DocumentOf(p, calls) && (calls != [] ==> w.disk == Some(DocumentOf(p, calls)))
  {
    if calls == [] {
      assert Answered(calls) == [];
    } else {
      var rest, last := calls[..|calls| - 1], calls[|calls| - 1];
      assert Answered(calls) == Answered(rest) + [Asks(last, Ok("reply"), true)];
      AnsweredAll(p, rest);
      DocumentShows(p, rest);
      hide IdealDigests, Run, Answered, WithEntry, Lookup, Opened;
      RunSplit(p, Opened(None, []), Answered(rest), [Asks(last, Ok("reply"), true)]);
      RunOne(p, Run(p, Opened(None, []), Answered(rest)), Asks(last, Ok("reply"), true));
      assert last !in rest;
    }
  }

  /** The answer to a call that was not asked while recording. */
  lemma {:induction false} MissedAnswer(p: Setup, calls: seq<Call>, c: Call, why: Diagnosis, live: Outcome)
    requires IdealDigests(p) && Distinct(calls) && calls != [] && c !in calls && c.system == calls[0].system
    requires Explains(Recorded(DocumentOf(p, calls), p.surface), p.FingerprintOf(c), why)
    ensures var disk := Run(p, Opened(None, []), Answered(calls)).disk;
      disk == Some(DocumentOf(p, calls)) &&
      Completed(p, Replay, Opened(disk, []), c, live, true, true).1 == Err(CassetteMiss(Diagnosed(why)))
  {
    AnsweredAll(p, calls);
    DocumentShows(p, calls);
    DocumentEntries(p, calls);
    assert calls[0] in calls;
    hide IdealDigests, Run, Answered, Lookup, Explains, DocumentOf, Recorded, MissFor;
    OneMiss(p, DocumentOf(p, calls), c, why);
  }

  /** A replay of what was recorded by asking `calls` answers `c` with the explanation `why`, which is false. */
  ghost predicate Misled(p: Setup, calls: seq<Call>, c: Call, why: Diagnosis, live: Outcome) {
    var disk := Run(p, Opened(None, []), Answered(calls)).disk;
    disk.Some? && !Claim(p, disk.value, c, why) &&
    Completed(p, Replay, Opened(disk, []), c, live, true, true).1 == Err(CassetteMiss(Diagnosed(why)))
  }

  /** Is the call answered from what was recorded by asking `calls`? */
  ghost predicate Replays(p: Setup, calls: seq<Call>, c: Call) {
    LookupDisk(Run(p, Opened(None, []), Answered(calls)).disk, p.key(c)).Some?
  }

  lemma {:induction false} MisledBy(p: Setup, x: Call, y: Call, c: Call, why: Diagnosis, live: Outcome)
    requires IdealDigests(p) && x != y && c != x && c != y && c.system == x.system
    requires var recorded, want := {p.FingerprintOf(x), p.FingerprintOf(y)}, p.FingerprintOf(c);
      Explains(recorded, want, why) &&
      match why
      case IntentNeverRecorded => LongAlong(recorded, want, 0)
      case DivergedAt(i) => LongAlong(recorded, want, i)
      case TurnNeverRecorded => !SameCall(recorded, want) || exists n :: want.(maxTokens := n) in recorded
      case _ => false
    ensures Misled(p, [x, y], c, why, live) && Replays(p, [x, y], x) && Replays(p, [x, y], y)
  {
    hide Explains, SameCall, LongAlong, IdealDigests, Run, Answered, DocumentOf, Recorded, Lookup, Completed, Claim;
    var calls := [x, y];
    assert Distinct(calls);
    var d := DocumentOf(p, calls);
    DocumentShows(p, calls);
    assert x in calls && y in calls && c !in calls;
    assert Recorded(d, p.surface) == {p.FingerprintOf(x), p.FingerprintOf(y)};
    MissedAnswer(p, calls, c, why, live);
    DocumentLabelled(p, calls);
    ClaimIff(p, d, c, why);
  }

  lemma {:induction false} DocumentLabelled(p: Setup, calls: seq<Call>)
    requires IdealDigests(p)
    ensures Labelled(p, DocumentOf(p, calls))
  {
    DocumentEntries(p, calls);
    hide DocumentOf, IdealDigests;
  }

  /** A request can be recorded, and answered, and a longer one that begins with it be told that "this
      particular request was never recorded": another request, also recorded, decides. */
  lemma {:induction false} IntentWasRecorded(p: Setup, live: Outcome)
    requires IdealDigests(p)
    ensures var x, y := Call("prompt", ["a"], "tools", 1), Call("prompt", ["c"], "tools", 1);
      var c := Call("prompt", ["a", "b"], "tools", 1);
      Misled(p, [x, y], c, IntentNeverRecorded, live) && Replays(p, [x, y], x)
  {
    hide Misled, Replays;
    var x, y := Call("prompt", ["a"], "tools", 1), Call("prompt", ["c"], "tools", 1);
    var c := Call("prompt", ["a", "b"], "tools", 1);
    var f, g, want := p.FingerprintOf(x), p.FingerprintOf(y), p.FingerprintOf(c);
    assert "a"[0] != "c"[0];
    assert f.messages == [p.sha("a")] && g.messages == [p.sha("c")] && want.messages == [p.sha("a"), p.sha("b")];
    assert |x.messages| != |c.messages| && x.messages[0] != y.messages[0];
    TwoRecorded(f, g, want, 0);
    hide IdealDigests;
    MisledBy(p, x, y, c, IntentNeverRecorded, live);
  }

  /** Two recorded calls with the wanted prompt and tools: one starts the conversation, the other leaves
      it at message `i`. */
  lemma {:induction false} TwoRecorded(f: Fingerprint, g: Fingerprint, want: Fingerprint, i: nat)
    requires Matches(f, want) && Matches(g, want) && RunsAlong(f, want) && |f.messages| > i
    requires DivergesAt(g, want, i)
    ensures Explains({f, g}, want, if i == 0 then IntentNeverRecorded else DivergedAt(i))
    ensures LongAlong({f, g}, want, i)
  {
    hide RunsAlong;
    RunsAlongIff(f, want);
    DivergenceIs(g, want, i);
    hide Divergence;
    assert f in {f, g} && g in {f, g};
    assert Deepest({f, g}, want, i);
  }

  /** A divergence can be reported at a message at which a recorded call agrees, and after it. */
  lemma {:induction false} DivergedTooEarly(p: Setup, live: Outcome)
    requires IdealDigests(p)
    ensures var x, y := Call("prompt", ["a", "b", "c"], "tools", 1), Call("prompt", ["a", "x"], "tools", 1);
      var c := Call("prompt", ["a", "b", "c", "d"], "tools", 1);
      Misled(p, [x, y], c, DivergedAt(1), live) && Replays(p, [x, y], x)
  {
    hide Misled, Replays;
    var x, y := Call("prompt", ["a", "b", "c"], "tools", 1), Call("prompt", ["a", "x"], "tools", 1);
    var c := Call("prompt", ["a", "b", "c", "d"], "tools", 1);
    var f, g, want := p.FingerprintOf(x), p.FingerprintOf(y), p.FingerprintOf(c);
    assert "b"[0] != "x"[0];
    assert |x.messages| == 3 && |y.messages| == 2 && |c.messages| == 4;
    assert x.messages[1] == c.messages[1] == "b" && y.messages[1] == "x";
    assert x.messages[0] == c.messages[0] == y.messages[0] && x.messages[2] == c.messages[2];
    TwoRecorded(f, g, want, 1);
    hide IdealDigests;
    MisledBy(p, x, y, c, DivergedAt(1), live);
  }

  /** "The prompt and tools match" can be said when no recorded call has both. */
  lemma {:induction false} MatchClaimCanBeFalse(p: Setup, live: Outcome)
    requires IdealDigests(p)
    ensures var x, y := Call("prompt", ["a"], "", 1), Call("", ["a"], "tools", 1);
      var c := Call("prompt", ["a"], "tools", 1);
      Misled(p, [x, y], c, TurnNeverRecorded, live) &&
      forall f :: f in {p.FingerprintOf(x), p.FingerprintOf(y)} ==> !Matches(f, p.FingerprintOf(c))
  {
    hide Misled, Replays;
    var x, y := Call("prompt", ["a"], "", 1), Call("", ["a"], "tools", 1);
    var c := Call("prompt", ["a"], "tools", 1);
    var f, g, want := p.FingerprintOf(x), p.FingerprintOf(y), p.FingerprintOf(c);
    assert "prompt" != "" && "tools" != "";
    assert f in {f, g} && g in {f, g};
    assert !Matches(f, want) && !Matches(g, want);
    hide IdealDigests, Divergence;
    assert Explains({f, g}, want, TurnNeverRecorded);
    MisledBy(p, x, y, c, TurnNeverRecorded, live);
  }

  /** "A turn that was never recorded" can be said of one that was, with another limit on tokens. */
  lemma {:induction false} TurnWasRecorded(p: Setup, live: Outcome)
    requires IdealDigests(p)
    ensures var x, y := Call("prompt", ["a"], "tools", 1), Call("prompt", ["a"], "tools", 2);
      var c := Call("prompt", ["a"], "tools", 3);
      Misled(p, [x, y], c, TurnNeverRecorded, live) && Replays(p, [x, y], x)
  {
    hide Misled, Replays;
    var x, y := Call("prompt", ["a"], "tools", 1), Call("prompt", ["a"], "tools", 2);
    var c := Call("prompt", ["a"], "tools", 3);
    var f, g, want := p.FingerprintOf(x), p.FingerprintOf(y), p.FingerprintOf(c);
    RunsAlongIff(f, want);
    RunsAlongIff(g, want);
    hide IdealDigests, Divergence;
    assert f in {f, g} && g in {f, g};
    assert Explains({f, g}, want, TurnNeverRecorded);
    assert f == want.(maxTokens := 1);
    MisledBy(p, x, y, c, TurnNeverRecorded, live);
  }
}
