/** Executing an approved plan step by step against the daemon. */
module PlanExecution {
  import opened Wrappers
  import opened Decimal

  datatype JobState = Queued | Running | Succeeded | Failed | Canceled | RolledBack | NeedsReboot

  function StatusName(s: JobState): string {
    match s
    case Queued => "queued"
    case Running => "running"
    case Succeeded => "succeeded"
    case Failed => "failed"
    case Canceled => "canceled"
    case RolledBack => "rolled_back"
    case NeedsReboot => "needs_reboot"
  }

  datatype Envelope = Envelope(
    status: JobState, summary: string, warnings: seq<string>, needsReboot: bool,
    rollbackRef: Option<string>, transactionId: string)

  /** A daemon message by its type; a field that is missing or has the wrong type is `None`. */
  datatype Message =
    | JobStarted
    | JobProgress(line: Option<string>)
    | JobCompleted(result: Result<Envelope, string>)
    | ErrorResponse(category: Option<string>, message: Option<string>)
    | ConflictResponse(reason: Option<string>)
    | OtherType(kind: string)

  /** What one attempt to read a frame gives. */
  datatype Read = TimedOut | ReceiveFailed(why: string) | Unparsable(why: string) | Received(message: Message)

  /** What happens to one request: it is never sent, its sending fails, or it is answered by frames. */
  datatype Session =
    | NotConnected(why: string)
    | NotSerialized(why: string)
    | SendTimedOut
    | SendFailed(why: string)
    | Sent(frames: seq<Read>)

  datatype CliError = ConfigOrDaemon(text: string) | ExecutionFailed(text: string)

  function Display(e: CliError): string {
    match e
    case ConfigOrDaemon(text) => "config/daemon error: " + text
    case ExecutionFailed(text) => "execution failed: " + text
  }

  datatype ExecuteFailure = ExecuteFailure(error: CliError, outcomeUnknown: bool)

  function Or(o: Option<string>, fallback: string): string {
    if o.Some? then o.value else fallback
  }

  type Outcome = Result<Envelope, ExecuteFailure>

  const CONNECTION_ENDED: Read := ReceiveFailed("early eof")

  // ----- one step -----

  const NO_FRAME_IN_TIME: string :=
    "timed out after 7500s waiting for the next frame from the daemon; the job may still be running " +
    "server-side"

  const NOT_SENT_IN_TIME: string := "timed out after 10s sending the request to the daemon"

  const NO_CONFLICT_MESSAGE: string := "conflict_response message missing 'message' string field"

  const NO_LINE: string := "job_progress message missing 'line' string field"

  /** A message after which the client keeps reading. */
  predicate Passing(read: Read) {
    read.Received? && (read.message.JobStarted? || (read.message.JobProgress? && read.message.line.Some?))
  }

  /** How many frames pass before the one that decides. */
  function FirstDeciding(frames: seq<Read>): (k: nat)
    ensures k <= |frames|
    ensures forall i :: 0 <= i < k ==> Passing(frames[i])
    ensures k < |frames| ==> !Passing(frames[k])
  {
    if frames == [] || !Passing(frames[0]) then 0 else 1 + FirstDeciding(frames[1..])
  }

  /** The progress lines among frames, stripped, in order. */
  function ProgressLines(strip: string -> string, frames: seq<Read>): seq<string> {
    if frames == [] then []
    else LineOf(strip, frames[0]) + ProgressLines(strip, frames[1..])
  }

  function DecidingRead(frames: seq<Read>): (read: Read)
    ensures !Passing(read)
  {
    if FirstDeciding(frames) < |frames| then frames[FirstDeciding(frames)] else CONNECTION_ENDED
  }

  /** What a deciding read means. */
  function Verdict(read: Read): Outcome
    requires !Passing(read)
  {
    match read
    case TimedOut => Err(ExecuteFailure(ExecutionFailed(NO_FRAME_IN_TIME), true))
    case ReceiveFailed(why) => Err(ExecuteFailure(ExecutionFailed("recv: " + why), true))
    case Unparsable(why) => Err(ExecuteFailure(ExecutionFailed("parse: " + why), true))
    case Received(JobCompleted(Ok(envelope))) => Ok(envelope)
    case Received(JobCompleted(Err(why))) => Err(ExecuteFailure(ExecutionFailed("parse result: " + why), true))
    case Received(ErrorResponse(category, message)) =>
      Err(ExecuteFailure(ExecutionFailed(Or(category, "error") + ": " + Or(message, "unknown")), false))
    case Received(ConflictResponse(Some(reason))) => Err(ExecuteFailure(ExecutionFailed("conflict: " + reason), false))
    case Received(ConflictResponse(None)) =>
      Err(ExecuteFailure(ExecutionFailed(NO_CONFLICT_MESSAGE), true))
    case Received(JobProgress(None)) =>
      Err(ExecuteFailure(ExecutionFailed(NO_LINE), true))
    case Received(OtherType(kind)) => Err(ExecuteFailure(ExecutionFailed("unexpected response type: " + kind), true))
  }

  function SessionOutcome(session: Session): Outcome {
    match session
    case NotConnected(why) => Err(ExecuteFailure(ConfigOrDaemon(why), false))
    case NotSerialized(why) => Err(ExecuteFailure(ConfigOrDaemon("serialize: " + why), false))
    case SendTimedOut => Err(ExecuteFailure(ConfigOrDaemon(NOT_SENT_IN_TIME), true))
    case SendFailed(why) => Err(ExecuteFailure(ConfigOrDaemon("send: " + why), true))
    case Sent(frames) => Verdict(DecidingRead(frames))
  }

  function SessionLines(strip: string -> string, session: Session): seq<string> {
    if session.Sent? then ProgressLines(strip, session.frames[..FirstDeciding(session.frames)]) else []
  }

  /** One connection: the frames still to come. */
  class Connection {
    var pending: seq<Read>

    constructor (pending: seq<Read>)
      ensures this.pending == pending
    {
      this.pending := pending;
    }

    method ReadFrame() returns (read: Read)
      modifies this
      ensures if old(pending) == [] then read == CONNECTION_ENDED && pending == []
              else read == old(pending)[0] && pending == old(pending)[1..]
    {
      if pending == [] {
        return CONNECTION_ENDED;
      }
      read := pending[0];
      pending := pending[1..];
    }
  }

  /** The caller's progress callback: it collects the lines it is given. */
  class LineSink {
    var lines: seq<string>

    constructor ()
      ensures lines == []
    {
      lines := [];
    }

    method OnLine(line: string)
      modifies this
      ensures lines == old(lines) + [line]
    {
      lines := lines + [line];
    }
  }

  lemma {:induction false} NotPassing()
    ensures !Passing(CONNECTION_ENDED)
  {
  }

  function LineOf(strip: string -> string, read: Read): seq<string> {
    match read
    case Received(JobProgress(Some(line))) => [strip(line)]
    case _ => []
  }

  /** What a decided outcome leaves unread. */
  function Unread(frames: seq<Read>): seq<Read> {
    if FirstDeciding(frames) < |frames| then frames[FirstDeciding(frames) + 1..] else []
  }

  lemma {:induction false} FirstDecidingStep(frames: seq<Read>)
    requires frames != [] && Passing(frames[0])
    ensures FirstDeciding(frames) == 1 + FirstDeciding(frames[1..])
    ensures DecidingRead(frames) == DecidingRead(frames[1..])
    ensures Unread(frames) == Unread(frames[1..])
  {
    hide Passing;
  }

  lemma {:induction false} LinesStep(strip: string -> string, frames: seq<Read>)
    requires frames != [] && Passing(frames[0])
    ensures SessionLines(strip, Sent(frames)) == LineOf(strip, frames[0]) + SessionLines(strip, Sent(frames[1..]))
  {
    hide Passing;
    FirstDecidingStep(frames);
    var k := FirstDeciding(frames);
    assert frames[..k][1..] == frames[1..][..k - 1] && frames[..k][0] == frames[0];
  }

  /** Nothing passes before a deciding first frame, or before the end. */
  lemma {:induction false} FramesStop(strip: string -> string, frames: seq<Read>)
    requires frames == [] || !Passing(frames[0])
    ensures SessionLines(strip, Sent(frames)) == [] && LineOf(strip, DecidingRead(frames)) == []
    ensures DecidingRead(frames) == if frames == [] then CONNECTION_ENDED else frames[0]
    ensures Unread(frames) == if frames == [] then [] else frames[1..]
  {
    assert FirstDeciding(frames) == 0 && frames[..0] == [];
  }

  /** One frame: it either decides the outcome, or is passed over after its line, if it has one, went
      to the callback. */
  method HandleFrame(read: Read, strip: string -> string, sink: LineSink) returns (decided: Option<Outcome>)
    modifies sink
    ensures decided == if Passing(read) then None else Some(Verdict(read))
    ensures sink.lines == old(sink.lines) + LineOf(strip, read)
  {
    hide NO_FRAME_IN_TIME, NO_CONFLICT_MESSAGE, NO_LINE;
    match read {
      case TimedOut =>
        decided := Some(Err(ExecuteFailure(ExecutionFailed(NO_FRAME_IN_TIME), true)));
      case ReceiveFailed(why) =>
        decided := Some(Err(ExecuteFailure(ExecutionFailed("recv: " + why), true)));
      case Unparsable(why) =>
        decided := Some(Err(ExecuteFailure(ExecutionFailed("parse: " + why), true)));
      case Received(message) =>
        match message {
          case JobStarted =>
            decided := None;
          case JobProgress(line) =>
            if line.None? {
              return Some(Err(ExecuteFailure(ExecutionFailed(NO_LINE), true)));
            }
            sink.OnLine(strip(line.value));
            decided := None;
          case JobCompleted(result) =>
            if result.Err? {
              return Some(Err(ExecuteFailure(ExecutionFailed("parse result: " + result.error), true)));
            }
            decided := Some(Ok(result.value));
          case ErrorResponse(category, text) =>
            decided := Some(Err(ExecuteFailure(ExecutionFailed(Or(category, "error") + ": " + Or(text, "unknown")),
              false)));
          case ConflictResponse(reason) =>
            if reason.None? {
              return Some(Err(ExecuteFailure(ExecutionFailed(NO_CONFLICT_MESSAGE), true)));
            }
            decided := Some(Err(ExecuteFailure(ExecutionFailed("conflict: " + reason.value), false)));
          case OtherType(kind) =>
            decided := Some(Err(ExecuteFailure(ExecutionFailed("unexpected response type: " + kind), true)));
        }
    }
  }

  /** The reading loop of `execute_with_outcome`: the callback sees exactly the progress lines before
      the first deciding frame, and that frame alone decides; what follows it stays unread. */
  method ReadToOutcome(connection: Connection, strip: string -> string, sink: LineSink) returns (outcome: Outcome)
    modifies connection, sink
    ensures sink.lines == old(sink.lines) + SessionLines(strip, Sent(old(connection.pending)))
    ensures outcome == Verdict(DecidingRead(old(connection.pending)))
    ensures connection.pending == Unread(old(connection.pending))
  {
    hide Passing, FirstDeciding, DecidingRead, SessionLines, Verdict, LineOf, Unread;
    ghost var all, seen := connection.pending, sink.lines;
    while true
      invariant Unread(all) == Unread(connection.pending)
      invariant DecidingRead(all) == DecidingRead(connection.pending)
      invariant seen + SessionLines(strip, Sent(all)) == sink.lines + SessionLines(strip, Sent(connection.pending))
      decreases |connection.pending|
    {
      ghost var rest, shown := connection.pending, sink.lines;
      var read := connection.ReadFrame();
      var decided := HandleFrame(read, strip, sink);
      if rest == [] || !Passing(rest[0]) {
        NotPassing();
        FramesStop(strip, rest);
        assert shown + [] == shown;
      } else {
        FirstDecidingStep(rest);
        LinesStep(strip, rest);
        assert shown + (LineOf(strip, rest[0]) + SessionLines(strip, Sent(rest[1..]))) ==
          shown + LineOf(strip, rest[0]) + SessionLines(strip, Sent(rest[1..]));
      }
      if decided.Some? {
        return decided.value;
      }
    }
  }

  // ----- the whole plan -----

  datatype Step = Step(actionName: string, transactionId: string, params: string, receipt: string)

  datatype StepReport = StepReport(
    actionName: string, status: string, summary: string, output: seq<string>, warnings: seq<string>,
    needsReboot: bool, transactionId: string, rollbackRef: Option<string>)

  datatype PlanReport = PlanReport(steps: seq<StepReport>, needsReboot: bool)

  const OUTPUT_LINE_LIMIT: nat := 500

  const CHECK_BEFORE_RETRY: string :=
    "The daemon may have applied this action or may still be running it. Check transaction history and " +
    "host state before retrying; do not automatically replay the plan."

  function TruncationMarker(dropped: nat): string {
    "[truncated: " + Digits(dropped) + " more lines omitted]"
  }

  /** `truncate_output`. */
  function Truncated(lines: seq<string>): seq<string> {
    if |lines| > OUTPUT_LINE_LIMIT
    then lines[..OUTPUT_LINE_LIMIT] + [TruncationMarker(|lines| - OUTPUT_LINE_LIMIT)]
    else lines
  }

  /** The report of a step from its outcome and the output to show. */
  function ReportOf(step: Step, outcome: Outcome, output: seq<string>): StepReport {
    match outcome
    case Ok(e) =>
      StepReport(step.actionName, StatusName(e.status), e.summary, output, e.warnings, e.needsReboot, e.transactionId,
        e.rollbackRef)
    case Err(failure) =>
      StepReport(step.actionName, if failure.outcomeUnknown then "unknown" else "failed",
                 "execute error for " + step.actionName + ": " + Display(failure.error), output,
                 if failure.outcomeUnknown then [CHECK_BEFORE_RETRY] else [], false, step.transactionId, None)
  }

  function Report(strip: string -> string, step: Step, session: Session): StepReport {
    ReportOf(step, SessionOutcome(session), Truncated(SessionLines(strip, session)))
  }

  /** The daemon as the plan meets it: the n-th request gets the n-th session. */
  class DaemonClient {
    const answers: nat -> Session
    var requests: seq<Step>

    constructor (answers: nat -> Session)
      ensures this.answers == answers && requests == []
    {
      this.answers := answers;
      requests := [];
    }

    /** `execute_with_outcome`. */
    method ExecuteWithOutcome(step: Step, strip: string -> string, sink: LineSink) returns (outcome: Outcome)
      modifies this, sink
      ensures requests == old(requests) + [step]
      ensures outcome == SessionOutcome(answers(|old(requests)|))
      ensures sink.lines == old(sink.lines) + SessionLines(strip, answers(|old(requests)|))
    {
      hide Verdict, Passing, FirstDeciding, DecidingRead, NOT_SENT_IN_TIME, ProgressLines, Unread;
      var session := answers(|requests|);
      requests := requests + [step];
      assert sink.lines + [] == sink.lines;
      match session {
        case NotConnected(why) => return Err(ExecuteFailure(ConfigOrDaemon(why), false));
        case NotSerialized(why) => return Err(ExecuteFailure(ConfigOrDaemon("serialize: " + why), false));
        case SendTimedOut => return Err(ExecuteFailure(ConfigOrDaemon(NOT_SENT_IN_TIME), true));
        case SendFailed(why) => return Err(ExecuteFailure(ConfigOrDaemon("send: " + why), true));
        case Sent(frames) =>
          var connection := new Connection(frames);
          outcome := ReadToOutcome(connection, strip, sink);
      }
    }

    /** `execute_steps_with_client`: the requests are a prefix of the steps, one report each, and the
        run stops at the first step that did not succeed. */
    method ExecuteSteps(steps: seq<Step>, strip: string -> string) returns (report: PlanReport)
      modifies this
      ensures |report.steps| <= |steps| && requests == old(requests) + steps[..|report.steps|]
      ensures IsRun(strip, steps, Shifted(answers, |old(requests)|), report.steps)
      ensures report.needsReboot <==> exists i :: 0 <= i < |report.steps| && report.steps[i].needsReboot
    {
      hide ReportOf, SessionLines, SessionOutcome, Truncated;
      var results: seq<StepReport> := [];
      var planNeedsReboot := false;
      ghost var before := requests;
      ghost var shifted := Shifted(answers, |before|);
      for n := 0 to |steps|
        invariant |results| == n && requests == before + steps[..n]
        invariant AllReported(strip, steps, shifted, results)
        invariant forall i :: 0 <= i < n ==> results[i].status == "succeeded"
        invariant planNeedsReboot <==> exists i :: 0 <= i < |results| && results[i].needsReboot
      {
        var step := steps[n];
        var sink := new LineSink();
        assert |requests| == |before| + n;
        var outcome := ExecuteWithOutcome(step, strip, sink);
        assert [] + SessionLines(strip, shifted(n)) == SessionLines(strip, shifted(n));
        assert before + steps[..n] + [step] == before + steps[..n + 1];
        var output := TruncateOutput(sink.lines);
        ghost var earlier := results;
        results := results + [ReportOf(step, outcome, output)];
        OneMoreReport(strip, steps, shifted, earlier, results);
        SucceededIff(step, outcome, output);
        match outcome {
          case Err(_) => return PlanReport(results, planNeedsReboot);
          case Ok(e) =>
            if e.needsReboot {
              planNeedsReboot := true;
            }
            if e.status != Succeeded {
              return PlanReport(results, planNeedsReboot);
            }
        }
      }
      assert steps[..|steps|] == steps;
      return PlanReport(results, planNeedsReboot);
    }
  }

  method TruncateOutput(lines: seq<string>) returns (out: seq<string>)
    ensures out == Truncated(lines)
  {
    hide TruncationMarker;
    out := lines;
    if |lines| > OUTPUT_LINE_LIMIT {
      var dropped := |lines| - OUTPUT_LINE_LIMIT;
      out := out[..OUTPUT_LINE_LIMIT];
      out := out + [TruncationMarker(dropped)];
    }
  }

  ghost function Shifted(answers: nat -> Session, start: nat): nat -> Session {
    (n: nat) => answers(start + n)
  }

  ghost predicate AllReported(strip: string -> string, steps: seq<Step>, answers: nat -> Session,
      results: seq<StepReport>) {
    |results| <= |steps| && forall i: nat :: i < |results| ==> results[i] == Report(strip, steps[i], answers(i))
  }

  /** What a run of a plan is: reports of a prefix of the steps, all succeeded but possibly the last,
      and the last step of the plan or a step that did not succeed at the end. */
  ghost predicate IsRun(strip: string -> string, steps: seq<Step>, answers: nat -> Session, results: seq<StepReport>) {
    AllReported(strip, steps, answers, results) &&
    (forall i :: 0 <= i < |results| - 1 ==> results[i].status == "succeeded") &&
    (|results| < |steps| ==> results != [] && results[|results| - 1].status != "succeeded")
  }

  lemma {:induction false} OneMoreReport(strip: string -> string, steps: seq<Step>, answers: nat -> Session,
      earlier: seq<StepReport>, results: seq<StepReport>)
    requires AllReported(strip, steps, answers, earlier) && |earlier| < |steps| && |results| == |earlier| + 1
    requires results[..|earlier|] == earlier
    requires results[|earlier|] == Report(strip, steps[|earlier|], answers(|earlier|))
    ensures AllReported(strip, steps, answers, results)
    ensures (exists i :: 0 <= i < |results| && results[i].needsReboot) <==>
      (exists i :: 0 <= i < |earlier| && earlier[i].needsReboot) || results[|earlier|].needsReboot
    ensures forall i :: 0 <= i < |earlier| ==> results[i] == earlier[i]
  {
    hide Report;
    assert forall i :: 0 <= i < |earlier| ==> results[i] == results[..|earlier|][i] == earlier[i];
  }

  lemma {:induction false} SucceededName(s: JobState)
    ensures StatusName(s) == "succeeded" <==> s == Succeeded
    ensures StatusName(s) != "unknown"
  {
    var name := StatusName(s);
    assert name[0] == 's' || name[0] == 'q' || name[0] == 'r' || name[0] == 'f' || name[0] == 'c' || name[0] == 'n';
  }

  /** A report says "succeeded" exactly when the daemon's result did, and "unknown" exactly when the
      client could not learn the outcome; only a result can ask for a reboot. */
  lemma {:induction false} SucceededIff(step: Step, outcome: Outcome, output: seq<string>)
    ensures ReportOf(step, outcome, output).status == "succeeded" <==> outcome.Ok? && outcome.value.status == Succeeded
    ensures ReportOf(step, outcome, output).status == "unknown" <==> outcome.Err? && outcome.error.outcomeUnknown
    ensures ReportOf(step, outcome, output).needsReboot <==> outcome.Ok? && outcome.value.needsReboot
  {
    hide StatusName, Display, CHECK_BEFORE_RETRY;
    if outcome.Ok? {
      SucceededName(outcome.value.status);
    } else {
      assert "failed"[0] == 'f' && "unknown"[0] == 'u' && "succeeded"[0] == 's';
    }
  }

  // ----- what the reports tell the caller -----

  /** A failure is known to have changed nothing only when the request was never sent, or the daemon
      answered, after any progress, with an error or a well-formed conflict. */
  lemma {:induction false} UnknownIff(strip: string -> string, step: Step, session: Session)
    ensures Report(strip, step, session).status == "unknown" <==>
      session.SendTimedOut? || session.SendFailed? ||
      (session.Sent? && var last := DecidingRead(session.frames);
       !(last.Received? &&
         ((last.message.JobCompleted? && last.message.result.Ok?) || last.message.ErrorResponse? ||
          (last.message.ConflictResponse? && last.message.reason.Some?))))
  {
    hide ReportOf, Truncated, SessionLines, DecidingRead, NO_FRAME_IN_TIME, NOT_SENT_IN_TIME, NO_CONFLICT_MESSAGE,
      NO_LINE;
    SucceededIff(step, SessionOutcome(session), Truncated(SessionLines(strip, session)));
  }

  lemma {:induction false} FirstDecidingLocal(frames: seq<Read>, later: seq<Read>)
    requires FirstDeciding(frames) < |frames|
    ensures FirstDeciding(frames + later) == FirstDeciding(frames)
  {
    hide Passing;
    assert (frames + later)[0] == frames[0];
    if Passing(frames[0]) {
      assert (frames + later)[1..] == frames[1..] + later;
      FirstDecidingLocal(frames[1..], later);
    }
  }

  /** Frames after the deciding one change nothing in the report. */
  lemma {:induction false} LaterFramesIgnored(strip: string -> string, step: Step, frames: seq<Read>, later: seq<Read>)
    requires FirstDeciding(frames) < |frames|
    ensures Report(strip, step, Sent(frames + later)) == Report(strip, step, Sent(frames))
  {
    hide ReportOf, Truncated, FirstDeciding, Verdict, ProgressLines, Passing;
    FirstDecidingLocal(frames, later);
    var k := FirstDeciding(frames);
    assert (frames + later)[..k] == frames[..k] && (frames + later)[k] == frames[k];
  }

  /** The answers leave one possible run. */
  lemma {:induction false} RunUnique(strip: string -> string, steps: seq<Step>, answers: nat -> Session,
      a: seq<StepReport>, b: seq<StepReport>)
    requires IsRun(strip, steps, answers, a) && IsRun(strip, steps, answers, b)
    ensures a == b
  {
    hide Report;
    assert forall i: nat :: i < |a| && i < |b| ==> a[i] == b[i];
    var last := (if |a| < |b| then |a| else |b|) - 1;
    assert last >= 0 ==> a[last] == b[last];
  }

  /** Running a plan is running its first part and then, only if all of that succeeded, the rest. */
  lemma {:induction false} RunInTwoParts(strip: string -> string, first: seq<Step>, rest: seq<Step>,
      answers: nat -> Session, a: seq<StepReport>, b: seq<StepReport>)
    requires IsRun(strip, first, answers, a)
    requires IsRun(strip, rest, Shifted(answers, |first|), b)
    ensures var completed := |a| == |first| && (a != [] ==> a[|a| - 1].status == "succeeded");
      IsRun(strip, first + rest, answers, if completed then a + b else a)
  {
    hide AllReported, Shifted;
    assert AllReported(strip, first, answers, a) && AllReported(strip, rest, Shifted(answers, |first|), b);
    if |a| == |first| && (a != [] ==> a[|a| - 1].status == "succeeded") {
      ReportsConcat(strip, first, rest, answers, a, b);
      assert |rest| >= |b| by { ReportsAtMost(strip, rest, Shifted(answers, |first|), b); }
      StatusesConcat(a, b);
    } else {
      ReportsAtMost(strip, first, answers, a);
      ReportsPrefix(strip, first, rest, answers, a);
    }
  }

  lemma {:induction false} ReportsAtMost(strip: string -> string, steps: seq<Step>, answers: nat -> Session,
      results: seq<StepReport>)
    requires AllReported(strip, steps, answers, results)
    ensures |results| <= |steps|
  {
  }

  lemma {:induction false} StatusesConcat(a: seq<StepReport>, b: seq<StepReport>)
    requires forall i :: 0 <= i < |a| - 1 ==> a[i].status == "succeeded"
    requires a != [] ==> a[|a| - 1].status == "succeeded"
    requires forall i :: 0 <= i < |b| - 1 ==> b[i].status == "succeeded"
    ensures forall i :: 0 <= i < |a + b| - 1 ==> (a + b)[i].status == "succeeded"
    ensures b != [] ==> (a + b)[|a + b| - 1] == b[|b| - 1]
  {
    forall i | 0 <= i < |a + b| - 1 ensures (a + b)[i].status == "succeeded" {
      if i >= |a| {
        assert (a + b)[i] == b[i - |a|];
      }
    }
  }

  lemma {:induction false} ReportsConcat(strip: string -> string, first: seq<Step>, rest: seq<Step>,
      answers: nat -> Session, a: seq<StepReport>, b: seq<StepReport>)
    requires AllReported(strip, first, answers, a) && |a| == |first|
    requires AllReported(strip, rest, Shifted(answers, |first|), b)
    ensures AllReported(strip, first + rest, answers, a + b)
  {
    hide Report, Shifted;
    forall i: nat | i < |a + b| ensures (a + b)[i] == Report(strip, (first + rest)[i], answers(i)) {
      if i >= |a| {
        var j: nat := i - |a|;
        ShiftedAt(answers, |first|, j);
        assert (a + b)[i] == b[j] && (first + rest)[i] == rest[j];
      } else {
        assert (a + b)[i] == a[i] && (first + rest)[i] == first[i];
      }
    }
  }

  lemma {:induction false} ShiftedAt(answers: nat -> Session, start: nat, n: nat)
    ensures Shifted(answers, start)(n) == answers(start + n)
  {
  }

  lemma {:induction false} ReportsPrefix(strip: string -> string, first: seq<Step>, rest: seq<Step>,
      answers: nat -> Session, a: seq<StepReport>)
    requires AllReported(strip, first, answers, a)
    ensures AllReported(strip, first + rest, answers, a)
  {
    hide Report;
    assert forall i: nat :: i < |a| ==> (first + rest)[i] == first[i];
  }

  /** Every report that is not a success is the last one: nothing is sent after it. */
  lemma {:induction false} StopsAtTrouble(strip: string -> string, steps: seq<Step>, answers: nat -> Session,
      results: seq<StepReport>, i: nat)
    requires IsRun(strip, steps, answers, results) && i < |results|
    ensures !(SessionOutcome(answers(i)).Ok? && SessionOutcome(answers(i)).value.status == Succeeded) <==>
      results[i].status != "succeeded"
    ensures results[i].status != "succeeded" ==> i == |results| - 1
  {
    hide ReportOf, SessionOutcome, SessionLines, Truncated;
    SucceededIff(steps[i], SessionOutcome(answers(i)), Truncated(SessionLines(strip, answers(i))));
  }

  // ----- what the daemon's frames become -----

  /** Frames that only say that the job is under way. */
  ghost predicate UnderWay(frames: seq<Read>) {
    forall i :: 0 <= i < |frames| ==>
      frames[i] == Received(JobStarted) ||
      (frames[i].Received? && frames[i].message.JobProgress? && frames[i].message.line.Some?)
  }

  /** The daemon's result `e` is the first frame that says more. */
  ghost predicate Answers(session: Session, e: Envelope) {
    exists frames, later :: UnderWay(frames) && session == Sent(frames + [Received(JobCompleted(Ok(e)))] + later)
  }

  lemma {:induction false} FirstDecidingIs(frames: seq<Read>, last: Read, later: seq<Read>)
    requires UnderWay(frames) && !UnderWay([last])
    ensures FirstDeciding(frames + [last] + later) == |frames| && DecidingRead(frames + [last] + later) == last
  {
    var all := frames + [last] + later;
    assert [last][0] == last && all[|frames|] == last;
    assert forall i :: 0 <= i < |frames| ==> all[i] == frames[i];
    assert FirstDeciding(all) == |frames|;
  }

  lemma {:induction false} NothingDecides(frames: seq<Read>)
    requires UnderWay(frames)
    ensures FirstDeciding(frames) == |frames| && DecidingRead(frames) == CONNECTION_ENDED
  {
  }

  /** The outcome is a result exactly when the first frame that decides carries it, whatever follows, and then
      it is that result with every field. */
  lemma {:induction false} AnswersIff(session: Session, e: Envelope)
    ensures SessionOutcome(session) == Ok(e) <==> Answers(session, e)
  {
    hide FirstDeciding, NO_FRAME_IN_TIME, NOT_SENT_IN_TIME, NO_CONFLICT_MESSAGE, NO_LINE;
    var result := Received(JobCompleted(Ok(e)));
    assert !UnderWay([result]) by { assert [result][0] == result; }
    if SessionOutcome(session) == Ok(e) {
      var all := session.frames;
      var k := FirstDeciding(all);
      assert all[k] == result;
      assert all == all[..k] + [result] + all[k + 1..];
      assert UnderWay(all[..k]);
    }
    if Answers(session, e) {
      var frames, later :| UnderWay(frames) && session == Sent(frames + [result] + later);
      FirstDecidingIs(frames, result, later);
    }
  }

  /** What every other deciding frame is reported as, and whether the outcome is then unknown. */
  lemma {:induction false} FailureTexts(frames: seq<Read>, last: Read, later: seq<Read>)
    requires UnderWay(frames) && !UnderWay([last])
    ensures var outcome := SessionOutcome(Sent(frames + [last] + later));
      match last
      case Received(JobCompleted(Ok(e))) => outcome == Ok(e)
      case TimedOut => outcome == Err(ExecuteFailure(ExecutionFailed(
        "timed out after 7500s waiting for the next frame from the daemon; the job may still be running " +
        "server-side"), true))
      case ReceiveFailed(why) => outcome == Err(ExecuteFailure(ExecutionFailed("recv: " + why), true))
      case Unparsable(why) => outcome == Err(ExecuteFailure(ExecutionFailed("parse: " + why), true))
      case Received(JobCompleted(Err(why))) =>
        outcome == Err(ExecuteFailure(ExecutionFailed("parse result: " + why), true))
      case Received(ErrorResponse(category, message)) =>
        outcome == Err(ExecuteFailure(ExecutionFailed((if category.Some? then category.value else "error") + ": " +
          (if message.Some? then message.value else "unknown")), false))
      case Received(ConflictResponse(Some(reason))) =>
        outcome == Err(ExecuteFailure(ExecutionFailed("conflict: " + reason), false))
      case Received(ConflictResponse(None)) =>
        outcome == Err(ExecuteFailure(ExecutionFailed("conflict_response message missing 'message' string field"),
          true))
      case Received(JobProgress(None)) =>
        outcome == Err(ExecuteFailure(ExecutionFailed("job_progress message missing 'line' string field"), true))
      case Received(OtherType(kind)) =>
        outcome == Err(ExecuteFailure(ExecutionFailed("unexpected response type: " + kind), true))
      case _ => true
  {
    FirstDecidingIs(frames, last, later);
    hide FirstDeciding, DecidingRead, UnderWay;
  }

  /** A stream that ends before anything decides, and a request that is not answered at all. */
  lemma {:induction false} UnansweredTexts(frames: seq<Read>, why: string)
    requires UnderWay(frames)
    ensures SessionOutcome(Sent(frames)) == Err(ExecuteFailure(ExecutionFailed("recv: early eof"), true))
    ensures SessionOutcome(NotConnected(why)) == Err(ExecuteFailure(ConfigOrDaemon(why), false))
    ensures SessionOutcome(NotSerialized(why)) == Err(ExecuteFailure(ConfigOrDaemon("serialize: " + why), false))
    ensures SessionOutcome(SendTimedOut) ==
      Err(ExecuteFailure(ConfigOrDaemon("timed out after 10s sending the request to the daemon"), true))
    ensures SessionOutcome(SendFailed(why)) == Err(ExecuteFailure(ConfigOrDaemon("send: " + why), true))
  {
    NothingDecides(frames);
    hide FirstDeciding, DecidingRead;
    assert "recv: " + "early eof" == "recv: early eof";
  }

  /** The output of a step: each progress line adds its stripped text at the end, and nothing else does. */
  lemma {:induction false} OutputGrows(strip: string -> string, frames: seq<Read>, line: string, last: Read,
      later: seq<Read>)
    requires UnderWay(frames) && !UnderWay([last])
    ensures SessionLines(strip, Sent([])) == []
    ensures SessionLines(strip, Sent(frames + [Received(JobStarted)])) == SessionLines(strip, Sent(frames))
    ensures SessionLines(strip, Sent(frames + [Received(JobProgress(Some(line)))])) ==
      SessionLines(strip, Sent(frames)) + [strip(line)]
    ensures SessionLines(strip, Sent(frames + [last] + later)) == SessionLines(strip, Sent(frames))
  {
    hide ProgressLines, FirstDeciding;
    var started, progress := Received(JobStarted), Received(JobProgress(Some(line)));
    assert UnderWay(frames + [started]) && UnderWay(frames + [progress]);
    NothingDecides(frames);
    NothingDecides([]);
    NothingDecides(frames + [started]);
    NothingDecides(frames + [progress]);
    FirstDecidingIs(frames, last, later);
    assert (frames + [started])[..|frames| + 1] == frames + [started];
    assert (frames + [progress])[..|frames| + 1] == frames + [progress];
    assert (frames + [last] + later)[..|frames|] == frames[..|frames|] == frames;
    LinesSnoc(strip, frames, started);
    LinesSnoc(strip, frames, progress);
    NoLines(strip);
    assert SessionLines(strip, Sent(frames)) + [] == SessionLines(strip, Sent(frames));
  }

  lemma {:induction false} NoLines(strip: string -> string)
    ensures ProgressLines(strip, []) == [] && forall s: seq<Read> :: s[..0] == []
  {
  }

  lemma {:induction false} LinesSnoc(strip: string -> string, frames: seq<Read>, read: Read)
    ensures ProgressLines(strip, frames + [read]) == ProgressLines(strip, frames) + LineOf(strip, read)
  {
    hide LineOf;
    if frames == [] {
      assert [] + [read] == [read] && [read][1..] == [];
      assert LineOf(strip, read) + [] == LineOf(strip, read) == [] + LineOf(strip, read);
    } else {
      assert (frames + [read])[1..] == frames[1..] + [read] && (frames + [read])[0] == frames[0];
      LinesSnoc(strip, frames[1..], read);
      assert LineOf(strip, frames[0]) + (ProgressLines(strip, frames[1..]) + LineOf(strip, read)) ==
        LineOf(strip, frames[0]) + ProgressLines(strip, frames[1..]) + LineOf(strip, read);
    }
  }

  /** The report of an answered step is the daemon's result, field by field. */
  lemma {:induction false} ResultReported(strip: string -> string, step: Step, session: Session, e: Envelope)
    requires Answers(session, e)
    ensures var r := Report(strip, step, session);
      && r.actionName == step.actionName && r.summary == e.summary && r.warnings == e.warnings
      && r.needsReboot == e.needsReboot && r.transactionId == e.transactionId && r.rollbackRef == e.rollbackRef
      && r.output == Truncated(SessionLines(strip, session))
      && r.status == match e.status
           case Queued => "queued" case Running => "running" case Succeeded => "succeeded" case Failed => "failed"
           case Canceled => "canceled" case RolledBack => "rolled_back" case NeedsReboot => "needs_reboot"
  {
    AnswersIff(session, e);
    hide SessionOutcome, SessionLines, Truncated, Answers;
  }

  /** The report of a step that failed. */
  lemma {:induction false} FailureReported(strip: string -> string, step: Step, session: Session)
    requires SessionOutcome(session).Err?
    ensures var r, f := Report(strip, step, session), SessionOutcome(session).error;
      && r.actionName == step.actionName && r.transactionId == step.transactionId && r.rollbackRef == None
      && !r.needsReboot && r.output == Truncated(SessionLines(strip, session))
      && r.status == (if f.outcomeUnknown then "unknown" else "failed")
      && (r.warnings == [] <==> !f.outcomeUnknown)
      && r.summary == "execute error for " + step.actionName + ": " +
           (if f.error.ConfigOrDaemon? then "config/daemon error: " else "execution failed: ") + f.error.text
  {
    hide SessionOutcome, SessionLines, Truncated, CHECK_BEFORE_RETRY;
    var f := SessionOutcome(session).error;
    var a, b, c := "execute error for " + step.actionName + ": ",
      (if f.error.ConfigOrDaemon? then "config/daemon error: " else "execution failed: "), f.error.text;
    assert a + (b + c) == a + b + c;
    assert [CHECK_BEFORE_RETRY] != [];
  }

  /** Over a run: a step is reported as succeeded exactly when the first frame of its session that decides is a
      result with that status, and only such a step is followed by another. */
  lemma {:induction false} RunReports(strip: string -> string, steps: seq<Step>, answers: nat -> Session,
      results: seq<StepReport>, i: nat)
    requires IsRun(strip, steps, answers, results) && i < |results|
    ensures results[i].status == "succeeded" <==> exists e :: Answers(answers(i), e) && e.status == Succeeded
    ensures i < |results| - 1 ==> exists e :: Answers(answers(i), e) && e.status == Succeeded
    ensures results[i].needsReboot <==> exists e :: Answers(answers(i), e) && e.needsReboot
  {
    hide ReportOf, SessionOutcome, SessionLines, Truncated, Answers;
    var outcome := SessionOutcome(answers(i));
    SucceededIff(steps[i], outcome, Truncated(SessionLines(strip, answers(i))));
    forall e ensures outcome == Ok(e) <==> Answers(answers(i), e) {
      AnswersIff(answers(i), e);
    }
    assert outcome.Ok? ==> Answers(answers(i), outcome.value);
  }

  // ----- truncated output -----

  /** Up to five hundred lines are shown as they are; of more, the first five hundred and a line that says how
      many are missing. */
  lemma {:induction false} TruncatedIs(a: seq<string>)
    ensures |a| <= 500 ==> Truncated(a) == a
    ensures |a| > 500 ==> |Truncated(a)| == 501 && Truncated(a)[..500] == a[..500]
    ensures |a| > 500 ==> exists digits ::
      AllDigits(digits) && ParseNat(digits) == |a| - 500 &&
      Truncated(a)[500] == "[truncated: " + digits + " more lines omitted]"
  {
    hide Digits, ParseNat;
    if |a| > 500 {
      DigitsParse(|a| - 500);
      assert Truncated(a)[500] == "[truncated: " + Digits(|a| - 500) + " more lines omitted]";
    }
  }

  /** From the shown lines a reader can tell whether, and how much, output was dropped: equal lists
      shown come from lists of equal length that agree on their first five hundred lines. */
  lemma {:induction false} TruncationIsHonest(a: seq<string>, b: seq<string>)
    ensures |Truncated(a)| <= OUTPUT_LINE_LIMIT + 1
    ensures |Truncated(a)| == OUTPUT_LINE_LIMIT + 1 <==> |a| > OUTPUT_LINE_LIMIT
    ensures Truncated(a) == Truncated(b) ==> |a| == |b|
    ensures Truncated(a) == Truncated(b) ==> forall i :: 0 <= i < |a| && i < OUTPUT_LINE_LIMIT ==> a[i] == b[i]
  {
    hide TruncationMarker;
    if Truncated(a) == Truncated(b) {
      if |a| > OUTPUT_LINE_LIMIT {
        assert Truncated(a)[OUTPUT_LINE_LIMIT] == Truncated(b)[OUTPUT_LINE_LIMIT];
        MarkerInjective(|a| - OUTPUT_LINE_LIMIT, |b| - OUTPUT_LINE_LIMIT);
        assert forall i :: 0 <= i < OUTPUT_LINE_LIMIT ==> a[i] == Truncated(a)[i] && b[i] == Truncated(b)[i];
      }
    }
  }

  lemma {:induction false} MarkerInjective(m: nat, n: nat)
    requires TruncationMarker(m) == TruncationMarker(n)
    ensures m == n
  {
    hide Digits, ParseNat;
    var front, back := "[truncated: ", " more lines omitted]";
    var a, b := TruncationMarker(m), TruncationMarker(n);
    assert a[|front|..|a| - |back|] == Digits(m) && b[|front|..|b| - |back|] == Digits(n);
    DigitsParse(m);
    DigitsParse(n);
  }
}
