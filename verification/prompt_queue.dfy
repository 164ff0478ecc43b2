/** The installer's prompt queue for piped input: questions and input lines meet in two lists. */
module PromptQueue {
  import opened Wrappers

  datatype Question = Question(text: string, defaultVal: Option<string>)

  /** A question waiting for a line: which question it is, and its default. */
  datatype Waiter = Waiter(id: nat, defaultVal: Option<string>)

  /** Two things happen: a question is asked, or a line arrives. */
  datatype Event = Asked(question: Question) | LineRead(line: string)

  /** `answer.trim() || defaultVal || ''`. */
  function Answer(trim: string -> string, line: string, defaultVal: Option<string>): string {
    if trim(line) != "" then trim(line) else if defaultVal.Some? then defaultVal.value else ""
  }

  /** The queue between two events: the unused lines, the unanswered questions, how many questions were
      asked, and the answers given, by question. */
  datatype State = State(lines: seq<string>, waiters: seq<Waiter>, asked: nat, answers: map<nat, string>)

  const EMPTY: State := State([], [], 0, map[])

  function Step(trim: string -> string, s: State, event: Event): State {
    match event
    case Asked(q) =>
      if s.lines != [] then
        State(s.lines[1..], s.waiters, s.asked + 1, s.answers[s.asked := Answer(trim, s.lines[0], q.defaultVal)])
      else
        State(s.lines, s.waiters + [Waiter(s.asked, q.defaultVal)], s.asked + 1, s.answers)
    case LineRead(line) =>
      if s.waiters != [] then
        State(s.lines, s.waiters[1..], s.asked,
          s.answers[s.waiters[0].id := Answer(trim, line, s.waiters[0].defaultVal)])
      else
        State(s.lines + [line], s.waiters, s.asked, s.answers)
  }

  function After(trim: string -> string, events: seq<Event>): State {
    if events == [] then EMPTY else Step(trim, After(trim, events[..|events| - 1]), events[|events| - 1])
  }

  /** The shared queue of the wizard. */
  class LineQueue {
    const trim: string -> string
    var lines: seq<string>
    var waiters: seq<Waiter>
    var asked: nat
    var answers: map<nat, string>

    constructor (trim: string -> string)
      ensures this.trim == trim && Current() == EMPTY
    {
      this.trim := trim;
      lines, waiters, asked, answers := [], [], 0, map[];
    }

    ghost function Current(): State
      reads this
    {
      State(lines, waiters, asked, answers)
    }

    /** `ask` on piped input with prompts enabled; the answer may come with a later line. */
    method Ask(question: Question) returns (id: nat)
      modifies this
      ensures Current() == Step(trim, old(Current()), Asked(question)) && id == old(asked)
    {
      id := asked;
      asked := asked + 1;
      if lines != [] {
        var line := lines[0];
        lines := lines[1..];
        answers := answers[id := Answer(trim, line, question.defaultVal)];
      } else {
        waiters := waiters + [Waiter(id, question.defaultVal)];
      }
    }

    /** The `line` handler. */
    method OnLine(line: string)
      modifies this
      ensures Current() == Step(trim, old(Current()), LineRead(line))
    {
      if waiters != [] {
        var waiter := waiters[0];
        waiters := waiters[1..];
        answers := answers[waiter.id := Answer(trim, line, waiter.defaultVal)];
      } else {
        lines := lines + [line];
      }
    }

    /** Any interleaving of questions and lines, from an empty queue: the k-th question has the k-th line's
        answer as soon as there is one, and what is left over waits in order on one side only. */
    method Serve(events: seq<Event>)
      requires Current() == EMPTY
      modifies this
      ensures Paired(trim, events, Current())
    {
      hide Step, Paired;
      for n := 0 to |events|
        invariant Current() == After(trim, events[..n])
      {
        assert events[..n + 1][..n] == events[..n];
        match events[n] {
          case Asked(question) => var _ := Ask(question);
          case LineRead(line) => OnLine(line);
        }
      }
      assert events[..|events|] == events;
      FirstInFirstOut(trim, events);
    }
  }

  /** `ask` with prompts disabled: the default or, without one, an error. */
  function AskWithoutPrompts(question: Question): (r: Result<string, string>)
    ensures r.Ok? <==> question.defaultVal.Some?
    ensures r.Ok? ==> Some(r.value) == question.defaultVal
  {
    if question.defaultVal.None? then Err("--no-prompts requires a default for: " + question.text)
    else Ok(question.defaultVal.value)
  }

  // ----- every interleaving -----

  function LineIn(event: Event): seq<string> {
    match event
    case LineRead(line) => [line]
    case Asked(_) => []
  }

  function QuestionIn(event: Event): seq<Question> {
    match event
    case Asked(q) => [q]
    case LineRead(_) => []
  }

  function LinesOf(events: seq<Event>): seq<string> {
    if events == [] then [] else LinesOf(events[..|events| - 1]) + LineIn(events[|events| - 1])
  }

  function QuestionsOf(events: seq<Event>): seq<Question> {
    if events == [] then [] else QuestionsOf(events[..|events| - 1]) + QuestionIn(events[|events| - 1])
  }

  function Min(a: nat, b: nat): nat {
    if a < b then a else b
  }

  /** The state that pairs the k-th line with the k-th question: a line that is not blank is the answer,
      trimmed, and a blank one leaves the default, or nothing. */
  ghost predicate Pairs(trim: string -> string, ls: seq<string>, qs: seq<Question>, s: State) {
    var m := Min(|ls|, |qs|);
    s.lines == ls[m..] && s.asked == |qs| &&
    |s.waiters| == |qs| - m &&
      (forall k :: 0 <= k < |s.waiters| ==> s.waiters[k] == Waiter(m + k, qs[m + k].defaultVal)) &&
    (forall k: nat :: k in s.answers <==> k < m) &&
    (forall k: nat :: k < m && trim(ls[k]) != "" ==> s.answers[k] == trim(ls[k])) &&
    forall k: nat :: k < m && trim(ls[k]) == "" ==>
      s.answers[k] == if qs[k].defaultVal.Some? then qs[k].defaultVal.value else ""
  }

  ghost predicate Paired(trim: string -> string, events: seq<Event>, s: State) {
    Pairs(trim, LinesOf(events), QuestionsOf(events), s)
  }

  lemma {:induction false} QuestionStep(trim: string -> string, ls: seq<string>, qs: seq<Question>, s: State,
      q: Question)
    requires Pairs(trim, ls, qs, s)
    ensures Pairs(trim, ls, qs + [q], Step(trim, s, Asked(q)))
  {
    var t := Step(trim, s, Asked(q));
    if s.lines != [] {
      assert ls[|qs|..][1..] == ls[|qs| + 1..] && s.lines[0] == ls[|qs|];
    } else {
      assert forall k :: 0 <= k < |s.waiters| ==> t.waiters[k] == s.waiters[k];
    }
  }

  lemma {:induction false} LineStep(trim: string -> string, ls: seq<string>, qs: seq<Question>, s: State, line: string)
    requires Pairs(trim, ls, qs, s)
    ensures Pairs(trim, ls + [line], qs, Step(trim, s, LineRead(line)))
  {
    var t := Step(trim, s, LineRead(line));
    if s.waiters != [] {
      assert (ls + [line])[|ls| + 1..] == [] && ls[|ls|..] == [];
      assert forall k :: 0 <= k < |t.waiters| ==> t.waiters[k] == s.waiters[k + 1];
    } else {
      assert (ls + [line])[|qs|..] == ls[|qs|..] + [line];
    }
  }

  lemma {:induction false} FirstInFirstOut(trim: string -> string, events: seq<Event>)
    ensures Paired(trim, events, After(trim, events))
  {
    hide Step, Pairs;
    if events == [] {
      NothingPaired(trim);
    } else {
      var n := |events| - 1;
      var s := After(trim, events[..n]);
      FirstInFirstOut(trim, events[..n]);
      var ls, qs := LinesOf(events[..n]), QuestionsOf(events[..n]);
      assert ls + [] == ls && qs + [] == qs;
      match events[n] {
        case Asked(q) => QuestionStep(trim, ls, qs, s, q);
        case LineRead(line) => LineStep(trim, ls, qs, s, line);
      }
    }
  }

  lemma {:induction false} NothingPaired(trim: string -> string)
    ensures Pairs(trim, [], [], EMPTY)
  {
  }

  /** Lines and questions never wait at the same time. */
  lemma {:induction false} OneSideWaits(trim: string -> string, events: seq<Event>)
    ensures After(trim, events).lines == [] || After(trim, events).waiters == []
  {
    hide After;
    FirstInFirstOut(trim, events);
  }

  /** The order in which questions and lines interleave makes no difference. */
  lemma {:induction false} InterleavingIrrelevant(trim: string -> string, a: seq<Event>, b: seq<Event>)
    requires LinesOf(a) == LinesOf(b) && QuestionsOf(a) == QuestionsOf(b)
    ensures After(trim, a) == After(trim, b)
  {
    hide After, LinesOf, QuestionsOf, Answer;
    FirstInFirstOut(trim, a);
    FirstInFirstOut(trim, b);
    PairsUnique(trim, LinesOf(a), QuestionsOf(a), After(trim, a), After(trim, b));
  }

  lemma {:induction false} PairsUnique(trim: string -> string, ls: seq<string>, qs: seq<Question>, s: State, t: State)
    requires Pairs(trim, ls, qs, s) && Pairs(trim, ls, qs, t)
    ensures s == t
  {
    hide Answer;
    assert s.waiters == t.waiters;
    assert s.answers == t.answers;
  }
}
