/** The desktop shell's reducer, and what holds after every sequence of actions. */
module ShellState {
  import opened Decimal
  import opened Wrappers

  datatype Kind = SystemEntry | UserEntry | SuccessEntry | WarningEntry | ErrorEntry

  datatype Entry = Entry(id: string, timestamp: string, kind: Kind, text: string)

  datatype Outcome = Succeeded | NeedsReboot | Failed | RolledBack | Canceled

  datatype Mode =
    | Idle | Planning | Previewing | AwaitingApproval | Executing | Reviewing | Rebooting | JobFailed | Undone

  datatype Plan = Plan(summary: string, body: string)

  datatype ShellError = ShellError(category: string, message: string)

  /** The state object; a field that is null or that the mode does not have is `None`. */
  datatype State = State(
    mode: Mode, intent: string, plan: Option<Plan>, activeJobId: Option<string>,
    error: Option<ShellError>, planError: Option<ShellError>,
    executionResult: Option<string>, summary: Option<string>,
    daemonStatus: string, timeline: seq<Entry>)

  datatype Action =
    | IntentSubmitted(intent: string)
    | PlanReady(plan: Plan)
    | RequestApproval
    | ApprovalGranted
    | JobCompleted(outcome: Outcome)
    | ExecutionReviewReady(result: string)
    | SummaryReady(summary: string)
    | DismissReview
    | TimelineEvent(text: string, kind: Kind)
    | PlanErrored(error: ShellError)
    | PolicyErrored(error: ShellError)
    | CancelRequested
    | DaemonStatusChanged(status: string)
    | Reset

  const INITIAL: State := State(Idle, "", None, None, None, None, None, None, "unknown", [])

  // ----- the reducer -----

  function AppendTimeline(s: State, text: string, kind: Kind, now: string): State {
    s.(timeline := s.timeline + [Entry(Digits(|s.timeline| + 1), now, kind, text)])
  }

  /** A new state in the mode, with what every transition carries over. */
  function Enter(s: State, mode: Mode, intent: string, plan: Option<Plan>): State {
    State(mode, intent, plan, None, None, None, None, None, s.daemonStatus, s.timeline)
  }

  /** What the timeline says about an action. */
  function EntryText(action: Action): string {
    match action
    case IntentSubmitted(intent) => "Intent submitted: " + intent
    case PlanReady(plan) => "Plan ready: " + plan.summary
    case RequestApproval => "Awaiting user approval"
    case ApprovalGranted => "Approval granted \U{2014} executing"
    case JobCompleted(Succeeded) => "Job completed successfully"
    case JobCompleted(Canceled) => "Job canceled"
    case JobCompleted(NeedsReboot) => "Job completed \U{2014} reboot required"
    case JobCompleted(RolledBack) => "Job rolled back"
    case JobCompleted(Failed) => "Job failed"
    case ExecutionReviewReady(_) => "Execution complete \U{2014} reviewing results"
    case PlanErrored(error) => "Planning failed: " + error.message
    case PolicyErrored(error) => "Policy error: " + error.message
    case CancelRequested => "Cancellation requested"
    case TimelineEvent(text, _) => text
    case SummaryReady(_) | DismissReview | DaemonStatusChanged(_) | Reset => ""
  }

  function Reduce(s: State, action: Action, now: string): State {
    var text := EntryText(action);
    match action
    case IntentSubmitted(intent) => AppendTimeline(Enter(s, Planning, intent, None), text, UserEntry, now)
    case PlanReady(plan) => AppendTimeline(Enter(s, Previewing, s.intent, Some(plan)), text, SystemEntry, now)
    case RequestApproval =>
      if s.mode != Previewing then s
      else AppendTimeline(Enter(s, AwaitingApproval, s.intent, s.plan), text, SystemEntry, now)
    case ApprovalGranted =>
      if s.mode != AwaitingApproval then s
      else AppendTimeline(Enter(s, Executing, s.intent, s.plan).(activeJobId := Some("pending")), text, UserEntry, now)
    case JobCompleted(Succeeded) => AppendTimeline(Enter(s, Idle, s.intent, None), text, SuccessEntry, now)
    case JobCompleted(NeedsReboot) =>
      if s.mode != Executing then s
      else AppendTimeline(Enter(s, Rebooting, s.intent, s.plan), text, WarningEntry, now)
    case JobCompleted(RolledBack) =>
      if s.mode != Executing then s
      else AppendTimeline(Enter(s, Undone, s.intent, s.plan), text, WarningEntry, now)
    case JobCompleted(Canceled) => AppendTimeline(Enter(s, Idle, s.intent, None), text, WarningEntry, now)
    case JobCompleted(Failed) =>
      if s.mode != Executing then s
      else AppendTimeline(Enter(s, JobFailed, s.intent, s.plan), text, ErrorEntry, now)
    case ExecutionReviewReady(result) =>
      if s.mode != Executing then s
      else AppendTimeline(Enter(s, Reviewing, s.intent, s.plan).(executionResult := Some(result)), text, SuccessEntry,
        now)
    case SummaryReady(summary) =>
      if s.mode != Reviewing then s else s.(summary := Some(summary))
    case DismissReview =>
      if s.mode != Reviewing then s else Enter(s, Idle, "", None)
    case PlanErrored(error) =>
      AppendTimeline(Enter(s, Idle, s.intent, None).(error := Some(error)), text, ErrorEntry, now)
    case PolicyErrored(error) =>
      if s.mode != Previewing && s.mode != AwaitingApproval then s
      else AppendTimeline(s.(planError := Some(error)), text, ErrorEntry, now)
    case CancelRequested => AppendTimeline(s, text, UserEntry, now)
    case DaemonStatusChanged(status) => s.(daemonStatus := status)
    case TimelineEvent(_, kind) => AppendTimeline(s, text, kind, now)
    case Reset => INITIAL
  }

  // ----- runs -----

  /** An action and the clock reading its timeline entry gets. */
  datatype Event = Event(action: Action, now: string)

  function After(events: seq<Event>): State {
    if events == [] then INITIAL
    else Reduce(After(events[..|events| - 1]), events[|events| - 1].action, events[|events| - 1].now)
  }

  /** Which of the nullable fields hold something. */
  predicate FieldsFitMode(s: State) {
    (s.plan.Some? <==> s.mode != Idle && s.mode != Planning) &&
    (s.activeJobId.Some? <==> s.mode == Executing) &&
    (s.error.Some? ==> s.mode == Idle) &&
    (s.planError.Some? ==> s.mode == Previewing || s.mode == AwaitingApproval) &&
    (s.executionResult.Some? <==> s.mode == Reviewing) &&
    (s.summary.Some? ==> s.mode == Reviewing)
  }

  ghost predicate Numbered(timeline: seq<Entry>) {
    forall i :: 0 <= i < |timeline| ==> timeline[i].id == Digits(i + 1)
  }

  lemma {:induction false} FieldsStep(s: State, action: Action, now: string)
    requires FieldsFitMode(s)
    ensures FieldsFitMode(Reduce(s, action, now))
  {
    hide Digits, EntryText;
  }

  lemma {:induction false} FieldsAfter(events: seq<Event>)
    ensures FieldsFitMode(After(events))
  {
    hide Reduce, FieldsFitMode;
    if events == [] {
      InitialFits();
    } else {
      var n := |events| - 1;
      FieldsAfter(events[..n]);
      FieldsStep(After(events[..n]), events[n].action, events[n].now);
    }
  }

  lemma {:induction false} InitialFits()
    ensures FieldsFitMode(INITIAL)
  {
  }

  /** A run that ends in reviewing, and the plan is still there. */
  lemma {:induction false} ReviewingHasPlan(intent: string, plan: Plan, result: string, now: string)
    ensures var events := [Event(IntentSubmitted(intent), now), Event(PlanReady(plan), now),
                           Event(RequestApproval, now), Event(ApprovalGranted, now),
                           Event(ExecutionReviewReady(result), now)];
      After(events).mode == Reviewing && After(events).plan == Some(plan)
  {
    hide Digits, EntryText, After;
    var a, b, c := Event(IntentSubmitted(intent), now), Event(PlanReady(plan), now), Event(RequestApproval, now);
    var d, e := Event(ApprovalGranted, now), Event(ExecutionReviewReady(result), now);
    AfterNone();
    AfterMore([], a);
    AfterMore([a], b);
    AfterMore([a, b], c);
    AfterMore([a, b, c], d);
    AfterMore([a, b, c, d], e);
    assert [] + [a] == [a] && [a] + [b] == [a, b] && [a, b] + [c] == [a, b, c] && [a, b, c] + [d] == [a, b, c, d] &&
      [a, b, c, d] + [e] == [a, b, c, d, e];
  }

  lemma {:induction false} AfterNone()
    ensures After([]) == INITIAL
  {
  }

  lemma {:induction false} AfterMore(events: seq<Event>, e: Event)
    ensures After(events + [e]) == Reduce(After(events), e.action, e.now)
  {
    hide Reduce;
    assert (events + [e])[..|events|] == events;
  }

  /** Which actions the shell heeds in a mode. */
  predicate Heeded(mode: Mode, action: Action) {
    match action
    case RequestApproval => mode == Previewing
    case ApprovalGranted => mode == AwaitingApproval
    case ExecutionReviewReady(_) => mode == Executing
    case JobCompleted(outcome) => outcome == Succeeded || outcome == Canceled || mode == Executing
    case PolicyErrored(_) => mode == Previewing || mode == AwaitingApproval
    case SummaryReady(_) | DismissReview => mode == Reviewing
    case _ => true
  }

  /** The others leave the state as it is. */
  lemma {:induction false} UnheededKeeps(s: State, action: Action, now: string)
    requires !Heeded(s.mode, action)
    ensures Reduce(s, action, now) == s
  {
    hide Digits, EntryText;
  }

  /** A heeded action appends one entry, numbered after the timeline; a summary, a dismissal and a change of the
      daemon's status do not, and a reset empties the timeline. */
  lemma {:induction false} TimelineStep(s: State, action: Action, now: string)
    ensures var t := Reduce(s, action, now).timeline;
      if action == Reset then t == []
      else if !Heeded(s.mode, action) || action.SummaryReady? || action.DismissReview? || action.DaemonStatusChanged?
      then t == s.timeline
      else Appended(s.timeline, t, action, now)
  {
    hide Digits, EntryText, Appended, AppendTimeline, KindOf;
    forall s': State, kind: Kind | s'.timeline == s.timeline && kind == KindOf(action)
      ensures Appended(s.timeline, AppendTimeline(s', EntryText(action), kind, now).timeline, action, now)
    {
      AppendsOne(s', action, now);
    }
    KindTable(action);
  }

  /** How an entry is coloured: by who acted, or by how it went. */
  function KindOf(action: Action): Kind {
    match action
    case TimelineEvent(_, kind) => kind
    case IntentSubmitted(_) | ApprovalGranted | CancelRequested => UserEntry
    case ExecutionReviewReady(_) | JobCompleted(Succeeded) => SuccessEntry
    case JobCompleted(Failed) | PlanErrored(_) | PolicyErrored(_) => ErrorEntry
    case JobCompleted(_) => WarningEntry
    case _ => SystemEntry
  }

  lemma {:induction false} KindTable(action: Action)
    ensures action.TimelineEvent? ==> KindOf(action) == action.kind
    ensures action.IntentSubmitted? || action.ApprovalGranted? || action.CancelRequested? ==>
      KindOf(action) == UserEntry
    ensures action.PlanReady? || action.RequestApproval? ==> KindOf(action) == SystemEntry
    ensures action.ExecutionReviewReady? ==> KindOf(action) == SuccessEntry
    ensures action.PlanErrored? || action.PolicyErrored? ==> KindOf(action) == ErrorEntry
    ensures action == JobCompleted(Succeeded) ==> KindOf(action) == SuccessEntry
    ensures action == JobCompleted(Failed) ==> KindOf(action) == ErrorEntry
    ensures action.JobCompleted? && action.outcome != Succeeded && action.outcome != Failed ==>
      KindOf(action) == WarningEntry
  {
  }

  /** What the entry says: the user's or the daemon's own words are in it, and no two outcomes read alike. */
  lemma {:induction false} EntryTexts(action: Action)
    ensures match action
      case IntentSubmitted(intent) => EntryText(action) == "Intent submitted: " + intent
      case PlanReady(plan) => EntryText(action) == "Plan ready: " + plan.summary
      case PlanErrored(error) => EntryText(action) == "Planning failed: " + error.message
      case PolicyErrored(error) => EntryText(action) == "Policy error: " + error.message
      case TimelineEvent(text, _) => EntryText(action) == text
      case JobCompleted(Succeeded) => EntryText(action) == "Job completed successfully"
      case JobCompleted(Canceled) => EntryText(action) == "Job canceled"
      case JobCompleted(NeedsReboot) => EntryText(action) == "Job completed \U{2014} reboot required"
      case JobCompleted(RolledBack) => EntryText(action) == "Job rolled back"
      case JobCompleted(Failed) => EntryText(action) == "Job failed"
      case RequestApproval => EntryText(action) == "Awaiting user approval"
      case ApprovalGranted => EntryText(action) == "Approval granted \U{2014} executing"
      case ExecutionReviewReady(_) => EntryText(action) == "Execution complete \U{2014} reviewing results"
      case CancelRequested => EntryText(action) == "Cancellation requested"
      case _ => true
  {
  }

  /** One entry about the action, with the next number. */
  ghost predicate Appended(t: seq<Entry>, t': seq<Entry>, action: Action, now: string) {
    t' == t + [Entry(Digits(|t| + 1), now, KindOf(action), EntryText(action))]
  }

  lemma {:induction false} AppendsOne(s: State, action: Action, now: string)
    ensures Appended(s.timeline, AppendTimeline(s, EntryText(action), KindOf(action), now).timeline, action, now)
  {
    hide Digits;
  }

  /** Timeline entries are numbered 1, 2, ... after every run. */
  lemma {:induction false} TimelineNumbered(events: seq<Event>)
    ensures Numbered(After(events).timeline)
  {
    hide Reduce, Digits;
    if events != [] {
      var n := |events| - 1;
      var s := After(events[..n]);
      TimelineNumbered(events[..n]);
      TimelineStep(s, events[n].action, events[n].now);
    }
  }

  lemma {:induction false} TimelineIdsDistinct(events: seq<Event>, i: nat, j: nat)
    requires i < j < |After(events).timeline|
    ensures After(events).timeline[i].id != After(events).timeline[j].id
  {
    hide After, Digits, ParseNat;
    TimelineNumbered(events);
    DigitsParse(i + 1);
    DigitsParse(j + 1);
  }

  /** The status last reported since the last reset. */
  function LatestStatus(events: seq<Event>): string {
    if events == [] then "unknown"
    else
      match events[|events| - 1].action
      case DaemonStatusChanged(status) => status
      case Reset => "unknown"
      case _ => LatestStatus(events[..|events| - 1])
  }

  /** The intent last submitted, unless a reset or an accepted dismissal came after it. */
  function LatestIntent(events: seq<Event>): string {
    if events == [] then ""
    else
      match events[|events| - 1].action
      case IntentSubmitted(intent) => intent
      case Reset => ""
      case DismissReview => if After(events[..|events| - 1]).mode == Reviewing then ""
        else LatestIntent(events[..|events| - 1])
      case _ => LatestIntent(events[..|events| - 1])
  }

  lemma {:induction false} CarriedStep(s: State, action: Action, now: string)
    ensures var t := Reduce(s, action, now);
      && t.daemonStatus ==
        (match action case DaemonStatusChanged(status) => status case Reset => "unknown" case _ => s.daemonStatus)
      && t.intent == (match action
           case IntentSubmitted(intent) => intent
           case Reset => ""
           case DismissReview => if s.mode == Reviewing then "" else s.intent
           case _ => s.intent)
  {
    hide Digits, EntryText;
  }

  /** The daemon status and the intent on screen are the latest ones after every run. */
  lemma {:induction false} CarriedAfter(events: seq<Event>)
    ensures After(events).daemonStatus == LatestStatus(events) && After(events).intent == LatestIntent(events)
  {
    hide Reduce;
    if events != [] {
      var n := |events| - 1;
      CarriedAfter(events[..n]);
      CarriedStep(After(events[..n]), events[n].action, events[n].now);
    }
  }

  /** What the state carries beside the plan after a heeded action: an error, a refusal, a result or a summary is
      the one just reported, and only progress on the side leaves the others standing. */
  lemma {:induction false} PayloadStep(s: State, action: Action, now: string)
    requires Heeded(s.mode, action)
    ensures var t := Reduce(s, action, now);
      if action.CancelRequested? || action.DaemonStatusChanged? || action.TimelineEvent? then
        t.mode == s.mode && t.activeJobId == s.activeJobId && t.error == s.error && t.planError == s.planError &&
        t.executionResult == s.executionResult && t.summary == s.summary
      else if action.PolicyErrored? then
        t.mode == s.mode && t.planError == Some(action.error) && t.error == s.error
      else if action.SummaryReady? then
        t.mode == s.mode && t.summary == Some(action.summary) && t.executionResult == s.executionResult
      else
        && t.error == (if action.PlanErrored? then Some(action.error) else None)
        && t.planError == None && t.summary == None
        && t.executionResult == (if action.ExecutionReviewReady? then Some(action.result) else None)
        && t.activeJobId == (if action.ApprovalGranted? then Some("pending") else None)
  {
    hide Digits, EntryText, AppendTimeline;
    forall s': State, kind: Kind
      ensures AppendTimeline(s', EntryText(action), kind, now) ==
        s'.(timeline := AppendTimeline(s', EntryText(action), kind, now).timeline)
    {
      AppendsOnly(s', EntryText(action), kind, now);
    }
  }

  lemma {:induction false} AppendsOnly(s: State, text: string, kind: Kind, now: string)
    ensures AppendTimeline(s, text, kind, now) == s.(timeline := AppendTimeline(s, text, kind, now).timeline)
  {
  }

  // ----- approval -----

  /** How far the plan on screen has come: 0 none, 1 shown, 2 put up for approval, 3 approved. */
  function Stage(mode: Mode): nat {
    match mode
    case Idle | Planning => 0
    case Previewing => 1
    case AwaitingApproval => 2
    case _ => 3
  }

  /** The actions that leave the plan on screen behind whatever the mode. */
  predicate Abandons(action: Action) {
    action.IntentSubmitted? || action.PlanReady? || action.PlanErrored? || action == Reset ||
    action == JobCompleted(Succeeded) || action == JobCompleted(Canceled)
  }

  /** The m-th action of the run leaves the plan on screen behind. */
  predicate Leaves(events: seq<Event>, m: nat)
    requires m < |events|
  {
    Abandons(events[m].action) || (events[m].action == DismissReview && After(events[..m]).mode == Reviewing)
  }

  /** The plan shown by the i-th action is still the one on screen. */
  ghost predicate OnScreen(events: seq<Event>, i: nat) {
    i < |events| && events[i].action.PlanReady? &&
    forall m :: i < m < |events| ==> !Leaves(events, m)
  }

  ghost predicate ShowsPlan(events: seq<Event>, i: nat, plan: Plan) {
    OnScreen(events, i) && events[i].action.plan == plan
  }

  ghost predicate Requested(events: seq<Event>, i: nat, j: nat) {
    i < j < |events| && events[j].action == RequestApproval
  }

  ghost predicate Granted(events: seq<Event>, j: nat, k: nat) {
    j < k < |events| && events[k].action == ApprovalGranted
  }

  /** One step: the stage after it. */
  lemma {:induction false} StageStep(s: State, action: Action, now: string)
    ensures var t := Reduce(s, action, now);
      Stage(t.mode) ==
        if action.PlanReady? then 1
        else if Abandons(action) || (action == DismissReview && s.mode == Reviewing) then 0
        else if action == RequestApproval && Stage(s.mode) == 1 then 2
        else if action == ApprovalGranted && Stage(s.mode) == 2 then 3
        else Stage(s.mode)
    ensures var t := Reduce(s, action, now);
      !action.PlanReady? && !Abandons(action) && !(action == DismissReview && s.mode == Reviewing) ==> t.plan == s.plan
  {
    hide Digits, EntryText;
  }

  lemma {:induction false} LeavesEarlier(events: seq<Event>, n: nat, m: nat)
    requires m < n <= |events|
    ensures Leaves(events[..n], m) <==> Leaves(events, m)
  {
    hide After, Abandons;
    assert events[..n][..m] == events[..m];
  }

  /** The plan stays on screen until the last action, and the last action leaves it there. */
  lemma {:induction false} OnScreenStep(events: seq<Event>, i: nat)
    requires events != [] && i < |events| - 1
    ensures OnScreen(events, i) <==> OnScreen(events[..|events| - 1], i) && !Leaves(events, |events| - 1)
  {
    hide Leaves;
    var n := |events| - 1;
    forall m | i < m < n ensures Leaves(events[..n], m) <==> Leaves(events, m) {
      LeavesEarlier(events, n, m);
    }
  }

  /** What happened, from where the run stands: the plan on screen was shown and not left since, and at
      the later stages its approval was asked for, then given, each while the shell was waiting for it. */
  lemma {:induction false} HowItGotHere(events: seq<Event>) returns (i: nat, j: nat, k: nat)
    requires Stage(After(events).mode) >= 1
    ensures i < |events| && OnScreen(events, i) && After(events).plan == Some(events[i].action.plan)
    ensures Stage(After(events).mode) >= 2 ==> Requested(events, i, j) && Stage(After(events[..j]).mode) == 1
    ensures Stage(After(events).mode) >= 3 ==> Granted(events, j, k) && Stage(After(events[..k]).mode) == 2
  {
    hide Stage, Abandons, Reduce, OnScreen;
    NotAtStart();
    assert events != [];
    var n: nat := |events| - 1;
    var before := After(events[..n]);
    StageStep(before, events[n].action, events[n].now);
    if events[n].action.PlanReady? {
      i, j, k := n, 0, 0;
      JustShown(events);
      PlanShown(before, events[n].action, events[n].now);
    } else {
      i, j, k := HowItGotHere(events[..n]);
      OnScreenStep(events, i);
      if events[n].action == RequestApproval && Stage(before.mode) == 1 {
        j := n;
      } else if events[n].action == ApprovalGranted && Stage(before.mode) == 2 {
        k := n;
        assert events[..n][..j] == events[..j];
      } else {
        assert j < n ==> events[..n][..j] == events[..j];
        assert k < n ==> events[..n][..k] == events[..k];
      }
    }
  }

  lemma {:induction false} NotAtStart()
    ensures After([]) == INITIAL && Stage(INITIAL.mode) == 0
  {
  }

  lemma {:induction false} JustShown(events: seq<Event>)
    requires events != [] && events[|events| - 1].action.PlanReady?
    ensures OnScreen(events, |events| - 1)
  {
  }

  lemma {:induction false} PlanShown(s: State, action: Action, now: string)
    requires action.PlanReady?
    ensures Reduce(s, action, now).plan == Some(action.plan)
  {
    hide Digits, EntryText;
  }

  /** The other way round: a plan still on screen has come at least as far as what was done to it. */
  lemma {:induction false} HowFarItGets(events: seq<Event>, i: nat, j: nat, k: nat)
    requires OnScreen(events, i)
    ensures Stage(After(events).mode) >= 1 && After(events).plan == Some(events[i].action.plan)
    ensures Requested(events, i, j) ==> Stage(After(events).mode) >= 2
    ensures Requested(events, i, j) && Granted(events, j, k) ==> Stage(After(events).mode) == 3
  {
    hide Stage, Reduce;
    var n: nat := |events| - 1;
    var before := After(events[..n]);
    StageStep(before, events[n].action, events[n].now);
    StageBound(before.mode);
    if i == n {
      PlanShown(before, events[n].action, events[n].now);
    } else {
      OnScreenStep(events, i);
      HowFarItGets(events[..n], i, j, k);
      hide OnScreen;
      assert !Leaves(events, n);
    }
  }

  lemma {:induction false} StageBound(mode: Mode)
    ensures Stage(mode) <= 3
  {
  }

  /** The shell is executing a plan, or past executing it, exactly when that plan was shown, its approval
      requested after that and granted after that, and no action has left it behind. */
  lemma {:induction false} ApprovedIff(events: seq<Event>, plan: Plan)
    ensures Stage(After(events).mode) == 3 && After(events).plan == Some(plan) <==>
      exists i: nat, j: nat, k: nat ::
        ShowsPlan(events, i, plan) && Requested(events, i, j) && Granted(events, j, k)
  {
    hide Stage, After, OnScreen, Requested, Granted;
    if Stage(After(events).mode) == 3 && After(events).plan == Some(plan) {
      var i, j, k := HowItGotHere(events);
    }
    if i: nat, j: nat, k: nat :| ShowsPlan(events, i, plan) && Requested(events, i, j) && Granted(events, j, k) {
      HowFarItGets(events, i, j, k);
    }
  }

  // ----- how a job ended -----

  /** The k-th action reported how the job ended while the plan was executing, and nothing has left the plan
      behind since. */
  ghost predicate EndedBy(events: seq<Event>, k: nat, action: Action) {
    k < |events| && events[k].action == action && After(events[..k]).mode == Executing &&
    forall m :: k < m < |events| ==> !Leaves(events, m)
  }

  /** Planning, and the modes past executing, one step at a time. */
  lemma {:induction false} EndStep(s: State, action: Action, now: string)
    ensures var t := Reduce(s, action, now);
      var stays := !Abandons(action) && !(action == DismissReview && s.mode == Reviewing);
      && (t.mode == Planning <==> (action.IntentSubmitted? || (s.mode == Planning && stays)))
      && (t.mode == Rebooting <==>
            ((s.mode == Executing && action == JobCompleted(NeedsReboot)) || (s.mode == Rebooting && stays)))
      && (t.mode == Undone <==>
            ((s.mode == Executing && action == JobCompleted(RolledBack)) || (s.mode == Undone && stays)))
      && (t.mode == JobFailed <==>
            ((s.mode == Executing && action == JobCompleted(Failed)) || (s.mode == JobFailed && stays)))
      && (t.mode == Reviewing <==>
            ((s.mode == Executing && action.ExecutionReviewReady?) || (s.mode == Reviewing && stays)))
      && (t.mode == Reviewing && !(s.mode == Executing) ==> t.executionResult == s.executionResult)
  {
    hide Digits, EntryText;
  }

  lemma {:induction false} EndedLater(events: seq<Event>, k: nat, action: Action)
    requires events != [] && k < |events| - 1
    ensures EndedBy(events, k, action) <==>
      EndedBy(events[..|events| - 1], k, action) && !Leaves(events, |events| - 1)
  {
    hide Leaves, After;
    var n := |events| - 1;
    assert events[..n][..k] == events[..k];
    forall m | k < m < n ensures Leaves(events[..n], m) <==> Leaves(events, m) {
      LeavesEarlier(events, n, m);
    }
  }

  ghost predicate Ended(events: seq<Event>, action: Action) {
    exists k: nat :: EndedBy(events, k, action)
  }

  lemma {:induction false} EndedStep(events: seq<Event>, action: Action)
    requires events != []
    ensures var n := |events| - 1;
      Ended(events, action) <==>
        (events[n].action == action && After(events[..n]).mode == Executing) ||
        (Ended(events[..n], action) && !Leaves(events, n))
  {
    hide Leaves, After;
    var n: nat := |events| - 1;
    if events[n].action == action && After(events[..n]).mode == Executing {
      assert EndedBy(events, n, action);
    }
    if Ended(events[..n], action) && !Leaves(events, n) {
      var k: nat :| EndedBy(events[..n], k, action);
      EndedLater(events, k, action);
      assert EndedBy(events, k, action);
    }
    if Ended(events, action) {
      var k: nat :| EndedBy(events, k, action);
      if k < n {
        EndedLater(events, k, action);
        assert EndedBy(events[..n], k, action);
      }
    }
  }

  /** The shell says that a reboot is needed, that the job was rolled back, or that it failed, exactly when that
      was reported while the plan was executing and nothing has left the plan behind since. */
  lemma {:induction false} EndedIff(events: seq<Event>)
    ensures After(events).mode == Rebooting <==> Ended(events, JobCompleted(NeedsReboot))
    ensures After(events).mode == Undone <==> Ended(events, JobCompleted(RolledBack))
    ensures After(events).mode == JobFailed <==> Ended(events, JobCompleted(Failed))
    ensures After(events).mode == Reviewing ==>
      After(events).executionResult.Some? && Ended(events, ExecutionReviewReady(After(events).executionResult.value))
  {
    hide Leaves, Ended, Reduce, Abandons;
    if events == [] {
      NotAtStart();
      NothingEnded();
    } else {
      var n: nat := |events| - 1;
      var before, e := After(events[..n]), events[n];
      EndedIff(events[..n]);
      EndStep(before, e.action, e.now);
      LeavesIs(events, n);
      EndedStep(events, JobCompleted(NeedsReboot));
      EndedStep(events, JobCompleted(RolledBack));
      EndedStep(events, JobCompleted(Failed));
      if After(events).mode == Reviewing {
        if before.mode == Executing {
          PayloadStep(before, e.action, e.now);
        }
        ResultShown(events);
        EndedStep(events, ExecutionReviewReady(After(events).executionResult.value));
      }
    }
  }

  lemma {:induction false} ResultShown(events: seq<Event>)
    ensures After(events).mode == Reviewing ==> After(events).executionResult.Some?
  {
    hide After;
    FieldsAfter(events);
  }

  lemma {:induction false} NothingEnded()
    ensures forall action :: !Ended([], action)
  {
  }

  lemma {:induction false} LeavesIs(events: seq<Event>, m: nat)
    requires m < |events|
    ensures Leaves(events, m) <==>
      Abandons(events[m].action) || (events[m].action == DismissReview && After(events[..m]).mode == Reviewing)
  {
  }
}
