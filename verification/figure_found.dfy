/** Which figure comments a scan finds: exactly those outside inline code and fenced blocks, each with the name,
    floor, place and line it has in the text. */
module FigureFound {
  import opened Wrappers
  import opened FigureMarkers
  import opened FigureScan
  import opened FigureRewrite
  import opened FigureCode
  import opened FigureShape
  import FigureTaken
  import FigurePasses

  // ----- lines and fences by position -----

  /** Where the line of position `p` begins. */
  function LineAt(t: string, p: nat): (s: nat)
    requires p <= |t|
    ensures s <= p
  {
    if p == 0 || EndsLine(t[p - 1..]) then p else LineAt(t, p - 1)
  }

  /** Lines are numbered from 1. */
  function LineNumber(t: string, p: nat): nat
    requires p <= |t|
  {
    if p == 0 then 1 else LineNumber(t, p - 1) + if EndsLine(t[p - 1..]) then 1 else 0
  }

  /** How many fence lines begin before position `p`. */
  function FencesBefore(t: string, p: nat): nat
    requires p <= |t|
  {
    if p == 0 then 0
    else FencesBefore(t, p - 1) + if LineAt(t, p - 1) == p - 1 && IsFence(RestLine(t[p - 1..])) then 1 else 0
  }

  /** Position `p` is on a line that is no fence and has an even number of fences above it. */
  predicate Unfenced(t: string, p: nat)
    requires p <= |t|
  {
    var s := LineAt(t, p);
    !IsFence(RestLine(t[s..])) && FencesBefore(t, s) % 2 == 0
  }

  lemma {:induction false} LineEndsAt(t: string)
    requires t != "" && LineLen(t) < |t|
    ensures EndsLine(t[LineLen(t) - 1..])
  {
    hide EndsLine;
    if EndsLine(t) {
      assert t[0..] == t;
    } else {
      LineEndsAt(t[1..]);
      assert t[1..][LineLen(t[1..]) - 1..] == t[LineLen(t) - 1..];
    }
  }

  /** Within the line that begins at `b`. */
  lemma {:induction false} InLine(t: string, b: nat, i: nat)
    requires b < |t| && LineAt(t, b) == b && i < |RestLine(t[b..])|
    ensures b + i < |t| && LineAt(t, b + i) == b && LineNumber(t, b + i) == LineNumber(t, b)
    ensures FencesBefore(t, b + i) == FencesBefore(t, b) + if i > 0 && IsFence(RestLine(t[b..])) then 1 else 0
    decreases i
  {
    hide EndsLine, IsFence;
    if i > 0 {
      InLine(t, b, i - 1);
      FigureTaken.RestInLine(t[b..], i);
      assert t[b..][i - 1..] == t[b + i - 1..];
    }
  }

  /** From one line to the next. */
  lemma {:induction false} NextLine(t: string, b: nat)
    requires b < |t| && LineAt(t, b) == b
    ensures var n := |RestLine(t[b..])|;
      && n > 0 && b + n <= |t|
      && FencesBefore(t, b + n) == FencesBefore(t, b) + (if IsFence(RestLine(t[b..])) then 1 else 0)
      && (b + n < |t| ==> LineAt(t, b + n) == b + n && LineNumber(t, b + n) == LineNumber(t, b) + 1)
  {
    hide EndsLine, IsFence, RestLine, LineLen, LineAt;
    RestSome(t, b);
    var n := |RestLine(t[b..])|;
    InLine(t, b, n - 1);
    if b + n < |t| {
      EndOfLine(t, b);
      StartsLine(t, b + n);
    }
    StepAt(t, b + n - 1);
  }

  lemma {:induction false} RestSome(t: string, b: nat)
    requires b < |t|
    ensures 0 < |RestLine(t[b..])| <= |t| - b
  {
    hide EndsLine;
  }

  lemma {:induction false} StartsLine(t: string, p: nat)
    requires 0 < p <= |t| && EndsLine(t[p - 1..])
    ensures LineAt(t, p) == p
  {
    hide EndsLine;
  }

  lemma {:induction false} StepAt(t: string, p: nat)
    requires p < |t|
    ensures FencesBefore(t, p + 1) ==
      FencesBefore(t, p) + if LineAt(t, p) == p && IsFence(RestLine(t[p..])) then 1 else 0
    ensures LineNumber(t, p + 1) == LineNumber(t, p) + if EndsLine(t[p..]) then 1 else 0
  {
    hide EndsLine, IsFence, RestLine;
  }

  // ----- the tokens of a text -----

  /** The comment that the token stands for, at its place. */
  ghost predicate Says(t: string, k: Token) {
    k.start < k.end <= |t| &&
    match k
    case Open(name, floor, start, end, _) => OpensFigure(t[start..end], name, floor) && floor != Some(0)
    case Close(start, end, _) => ClosesFigure(t[start..end])
  }

  /** A figure comment outside inline code and fenced blocks, on one line. */
  ghost predicate IsToken(t: string, k: Token) {
    && Says(t, k) && k.end <= k.start + |RestLine(t[k.start..])|
    && Unfenced(t, k.start) && !CodeAt(t, k.start) && k.line == LineNumber(t, k.start)
  }

  lemma {:induction false} ScanHas(u: string, n: nat, odd: bool, at: nat, lineno: nat, i: nat)
    requires i < n <= |u| && Starts(u[i..], odd != OddTicks(u[..i]))
    ensures ItemAt(u[i..], at + i, lineno) in Scan(u, n, odd, at, lineno)
    decreases n
  {
    hide KeywordLen, Classify, Scan;
    ScanUnfold(u, n, odd, at, lineno);
    if i == 0 {
      assert u[0..] == u && u[..0] == "";
    } else {
      assert u[1..][i - 1..] == u[i..] && u[..i] == [u[0]] + u[1..][..i - 1];
      assert u[..i][1..] == u[1..][..i - 1];
      ScanHas(u[1..], n - 1, odd != (u[0] == '`'), at + 1, lineno, i - 1);
    }
  }

  /** The token `k` starts at the front of `u`, outside inline code. */
  ghost predicate TokenAt(u: string, odd: bool, at: nat, lineno: nat, k: Token) {
    Starts(u, odd) && ItemAt(u, at, lineno) == Tok(k)
  }

  lemma {:induction false} TokenStart(u: string, odd: bool, at: nat, lineno: nat, k: Token)
    requires TokenAt(u, odd, at, lineno, k)
    ensures k.start == at
  {
    hide KeywordLen, Classify;
  }

  lemma {:induction false} TokenHas(line: string, at: nat, lineno: nat, i: nat, k: Token)
    requires i < |line| && TokenAt(line[i..], OddTicks(line[..i]), at + i, lineno, k)
    ensures Tok(k) in Scan(line, |line|, false, at, lineno)
  {
    hide KeywordLen, Classify, Scan, OddTicks;
    ScanHas(line, |line|, false, at, lineno, i);
  }

  lemma {:induction false} TokenFrom(line: string, at: nat, lineno: nat, k: Token)
    requires Tok(k) in Scan(line, |line|, false, at, lineno)
    ensures at <= k.start < at + |line|
    ensures TokenAt(line[k.start - at..], OddTicks(line[..k.start - at]), k.start, lineno, k)
  {
    hide KeywordLen, Classify, Scan, OddTicks;
    var items := Scan(line, |line|, false, at, lineno);
    var j :| 0 <= j < |items| && items[j] == Tok(k);
    var i := ScanItem(line, |line|, false, at, lineno, j);
    TokenStart(line[i..], OddTicks(line[..i]), at + i, lineno, k);
  }

  /** A token of an unfenced line is one that starts in it outside inline code. */
  lemma {:induction false} ScanIff(line: string, at: nat, lineno: nat, k: Token)
    ensures Tok(k) in Scan(line, |line|, false, at, lineno) <==>
      at <= k.start < at + |line| &&
      TokenAt(line[k.start - at..], OddTicks(line[..k.start - at]), k.start, lineno, k)
  {
    hide TokenAt, Scan, OddTicks;
    if Tok(k) in Scan(line, |line|, false, at, lineno) {
      TokenFrom(line, at, lineno, k);
    }
    if at <= k.start < at + |line| &&
      TokenAt(line[k.start - at..], OddTicks(line[..k.start - at]), k.start, lineno, k)
    {
      TokenHas(line, at, lineno, k.start - at, k);
    }
  }

  /** A token at the front of the rest of a line is the comment it says, and ends in the line. */
  lemma {:induction false} TokenAtIff(u: string, odd: bool, at: nat, lineno: nat, k: Token)
    ensures TokenAt(u, odd, at, lineno, k) <==>
      k.start == at && k.line == lineno && at < k.end <= at + |u| && !(odd && '`' in u) &&
      match k
      case Open(name, floor, _, end, _) => OpensFigure(u[..end - at], name, floor) && floor != Some(0)
      case Close(_, end, _) => ClosesFigure(u[..end - at])
  {
    hide KeywordLen, Classify, OpensFigure, ClosesFigure;
    if KeywordLen(u) != 0 {
      var n: nat := if k.end >= at then k.end - at else 0;
      if k.Open? {
        ShapeIff(u, k.name, k.floor, n);
      } else {
        ShapeIff(u, "", None, n);
      }
      LongEnough(u);
    }
    if at < k.end <= at + |u| {
      var c := u[..k.end - at];
      assert c + u[k.end - at..] == u;
      if k.Open? && OpensFigure(c, k.name, k.floor) { OpensRecognised(c, u[k.end - at..], k.name, k.floor); }
      if k.Close? && ClosesFigure(c) { ClosesRecognised(c, u[k.end - at..]); }
    }
  }

  lemma {:induction false} LongEnough(u: string)
    requires KeywordLen(u) != 0
    ensures !Classify(u).BadShape? ==> Classify(u).len > 0
  {
    hide KeywordLen;
    if !Classify(u).BadShape? {
      TokenInterior(u);
    }
  }

  // ----- by position in the text -----

  /** The tokens of the line that begins at `b`. */
  lemma {:induction false} LineTokens(t: string, b: nat, k: Token)
    requires b < |t| && LineAt(t, b) == b && (b > 0 ==> EndsLine(t[b - 1..]))
    ensures var line := RestLine(t[b..]);
      Tok(k) in LineItems(line, b, LineNumber(t, b), FencesBefore(t, b) % 2 == 1) <==>
      IsToken(t, k) && b <= k.start < b + |line|
  {
    hide IsFence, LineItems, Scan, TokenAt, OddTicks, EndsLine, RestLine, LineAt, LineNumber, FencesBefore, IsToken;
    var line, lineno, odd := RestLine(t[b..]), LineNumber(t, b), FencesBefore(t, b) % 2 == 1;
    LineTokensIff(line, b, lineno, odd, k);
    if b <= k.start < b + |line| {
      var i := k.start - b;
      InLine(t, b, i);
      UnfencedIs(t, b, i);
      TokenOnLine(t, b, i, k);
    }
  }

  lemma {:induction false} LineTokensIff(line: string, at: nat, lineno: nat, inFence: bool, k: Token)
    ensures Tok(k) in LineItems(line, at, lineno, inFence) <==>
      !IsFence(line) && !inFence && at <= k.start < at + |line| &&
      TokenAt(line[k.start - at..], OddTicks(line[..k.start - at]), k.start, lineno, k)
  {
    hide IsFence, HasStart, Scan, TokenAt, OddTicks;
    ScanIff(line, at, lineno, k);
  }

  lemma {:induction false} TokenOnLine(t: string, b: nat, i: nat, k: Token)
    requires b < |t| && LineAt(t, b) == b && (b > 0 ==> EndsLine(t[b - 1..]))
    requires i < |RestLine(t[b..])| && k.start == b + i
    requires Unfenced(t, b + i) <==> !IsFence(RestLine(t[b..])) && FencesBefore(t, b) % 2 == 0
    ensures var line := RestLine(t[b..]);
      IsToken(t, k) <==>
        !IsFence(line) && FencesBefore(t, b) % 2 == 0 &&
        TokenAt(line[i..], OddTicks(line[..i]), b + i, LineNumber(t, b), k)
  {
    hide IsFence, TokenAt, OddTicks, EndsLine, LineLen, Says, Unfenced, CodeAt, LineAt, FencesBefore;
    InLine(t, b, i);
    FigureTaken.CodeAtInLine(t, b, i);
    FigureTaken.RestInLine(t[b..], i);
    assert t[b..][i..] == t[b + i..];
    TokenSays(t, b, i, k);
  }

  lemma {:induction false} UnfencedIs(t: string, b: nat, i: nat)
    requires b + i <= |t| && LineAt(t, b + i) == b
    ensures Unfenced(t, b + i) <==> !IsFence(RestLine(t[b..])) && FencesBefore(t, b) % 2 == 0
  {
    hide IsFence, RestLine, FencesBefore;
  }

  lemma {:induction false} TokenSays(t: string, b: nat, i: nat, k: Token)
    requires b + i < |t| && k.start == b + i && i < |RestLine(t[b..])| && RestLine(t[b..])[i..] == RestLine(t[b + i..])
    requires CodeAt(t, b + i) <==> FigurePasses.InCode(RestLine(t[b..]), i)
    requires LineNumber(t, b + i) == LineNumber(t, b)
    ensures var line := RestLine(t[b..]);
      TokenAt(line[i..], OddTicks(line[..i]), b + i, LineNumber(t, b), k) <==>
      Says(t, k) && k.end <= k.start + |RestLine(t[k.start..])| && !CodeAt(t, k.start) &&
        k.line == LineNumber(t, k.start)
  {
    hide TokenAt, OddTicks, LineLen, CodeAt, LineNumber, OpensFigure, ClosesFigure;
    var line := RestLine(t[b..]);
    var u := line[i..];
    TokenAtIff(u, OddTicks(line[..i]), b + i, LineNumber(t, b), k);
    if k.start < k.end <= k.start + |u| {
      assert u == t[k.start..][..|u|];
      assert u[..k.end - k.start] == t[k.start..k.end];
    }
  }

  /** The tokens from a line's beginning on. */
  lemma {:induction false} TokensFrom(t: string, b: nat, k: Token)
    requires b <= |t| && (b < |t| ==> LineAt(t, b) == b && (b > 0 ==> EndsLine(t[b - 1..])))
    ensures b < |t| ==>
      (Tok(k) in Items(t[b..], b, LineNumber(t, b), FencesBefore(t, b) % 2 == 1) <==> IsToken(t, k) && b <= k.start)
    ensures b == |t| ==> !(IsToken(t, k) && b <= k.start)
    decreases |t| - b
  {
    hide IsFence, LineItems, IsToken, LineAt, LineNumber, FencesBefore, Items, EndsLine;
    if b == |t| {
      TokenInside(t, k);
    } else {
      var rest, lineno, odd := t[b..], LineNumber(t, b), FencesBefore(t, b) % 2 == 1;
      var line := RestLine(rest);
      var n := |line|;
      NextLine(t, b);
      LineTokens(t, b, k);
      ItemsUnfold(rest, b, lineno, odd);
      assert rest[n..] == t[b + n..];
      if b + n < |t| { EndOfLine(t, b); } else { assert rest[n..] == ""; }
      TokensFrom(t, b + n, k);
      EmptyItems(b + n, lineno + 1, odd != IsFence(line));
      assert IsToken(t, k) && b + n == |t| ==> k.start < b + n by { TokenInside(t, k); }
    }
  }

  lemma {:induction false} EmptyItems(at: nat, lineno: nat, inFence: bool)
    ensures Items("", at, lineno, inFence) == []
  {
  }

  lemma {:induction false} TokenInside(t: string, k: Token)
    ensures IsToken(t, k) ==> k.start < |t|
  {
    hide OpensFigure, ClosesFigure, Unfenced, CodeAt, RestLine;
  }

  lemma {:induction false} EndOfLine(t: string, b: nat)
    requires b < |t| && b + |RestLine(t[b..])| < |t|
    ensures EndsLine(t[b + |RestLine(t[b..])| - 1..])
  {
    hide EndsLine;
    var n := |RestLine(t[b..])|;
    LineEndsAt(t[b..]);
    assert t[b..][n - 1..] == t[b + n - 1..];
  }

  /** The scan of a text finds exactly its figure comments outside inline code and fenced blocks, each with its
      name, floor, place and line. */
  lemma {:induction false} TokenIff(t: string, k: Token)
    ensures Tok(k) in Items(t, 0, 1, false) <==> IsToken(t, k)
  {
    hide Items, IsToken, EndsLine;
    TokensFrom(t, 0, k);
    assert t[0..] == t;
    EmptyItems(0, 1, false);
    assert LineNumber(t, 0) == 1 && FencesBefore(t, 0) == 0;
  }

  // ----- the problems of a text -----

  /** The malformed comment `b` starts at the front of `u`, outside inline code. */
  ghost predicate BadAt(u: string, odd: bool, lineno: nat, b: Problem) {
    KeywordLen(u) != 0 && !(odd && '`' in u) && Classify(u) == BadShape(b.kind) && b.line == lineno
  }

  lemma {:induction false} BadItem(u: string, odd: bool, at: nat, lineno: nat, b: Problem)
    ensures BadAt(u, odd, lineno, b) <==> Starts(u, odd) && ItemAt(u, at, lineno) == Bad(b)
  {
    hide KeywordLen, Classify;
  }

  lemma {:induction false} BadIff(line: string, at: nat, lineno: nat, b: Problem)
    ensures Bad(b) in Scan(line, |line|, false, at, lineno) <==>
      exists i :: 0 <= i < |line| && BadAt(line[i..], OddTicks(line[..i]), lineno, b)
  {
    hide BadAt, Starts, Scan, OddTicks;
    var items := Scan(line, |line|, false, at, lineno);
    if Bad(b) in items {
      var j :| 0 <= j < |items| && items[j] == Bad(b);
      var i := ScanItem(line, |line|, false, at, lineno, j);
      BadItem(line[i..], OddTicks(line[..i]), at + i, lineno, b);
    }
    if i :| 0 <= i < |line| && BadAt(line[i..], OddTicks(line[..i]), lineno, b) {
      BadItem(line[i..], OddTicks(line[..i]), at + i, lineno, b);
      ScanHas(line, |line|, false, at, lineno, i);
    }
  }

  /** A malformed comment at position `p`, outside inline code and fenced blocks. */
  ghost predicate Malformed(t: string, p: nat, b: Problem) {
    p < |t| && Unfenced(t, p) && !CodeAt(t, p) && b.line == LineNumber(t, p) &&
    CommentAt(t, p) && Classify(RestLine(t[p..])) == BadShape(b.kind)
  }

  /** A marker keyword in the line of position `p`, which is inside a fenced block. */
  ghost predicate FencedComment(t: string, p: nat, b: Problem) {
    p < |t| && LineAt(t, p) == p && !IsFence(RestLine(t[p..])) && FencesBefore(t, p) % 2 == 1 &&
    HasStart(RestLine(t[p..])) && b == Problem(LineNumber(t, p), InFence)
  }

  ghost predicate IsProblem(t: string, p: nat, b: Problem) {
    Malformed(t, p, b) || FencedComment(t, p, b)
  }

  lemma {:induction false} MalformedIs(t: string, b: nat, i: nat, p: Problem)
    requires b < |t| && LineAt(t, b) == b && (b > 0 ==> EndsLine(t[b - 1..])) && i < |RestLine(t[b..])|
    ensures var line := RestLine(t[b..]);
      Malformed(t, b + i, p) <==>
        !IsFence(line) && FencesBefore(t, b) % 2 == 0 && BadAt(line[i..], OddTicks(line[..i]), LineNumber(t, b), p)
  {
    hide IsFence, OddTicks, EndsLine, LineLen, Unfenced, CodeAt, KeywordLen, Classify, LineAt, LineNumber;
    InLine(t, b, i);
    UnfencedIs(t, b, i);
    FigureTaken.CodeAtInLine(t, b, i);
    FigureTaken.RestInLine(t[b..], i);
    assert t[b..][i..] == t[b + i..];
  }

  ghost predicate ProblemWithin(t: string, b: nat, n: nat, p: Problem) {
    exists q: nat :: b <= q < b + n && IsProblem(t, q, p)
  }

  lemma {:induction false} LineProblems(t: string, b: nat, p: Problem)
    requires b < |t| && LineAt(t, b) == b && (b > 0 ==> EndsLine(t[b - 1..]))
    ensures var line := RestLine(t[b..]);
      Bad(p) in LineItems(line, b, LineNumber(t, b), FencesBefore(t, b) % 2 == 1) <==>
      ProblemWithin(t, b, |line|, p)
  {
    hide IsFence, HasStart, Scan, BadAt, OddTicks, EndsLine, LineLen, Malformed, FencedComment, LineProblem, LineAt;
    var line, lineno, odd := RestLine(t[b..]), LineNumber(t, b), FencesBefore(t, b) % 2 == 1;
    LineBads(line, b, lineno, odd, p);
    RestSome(t, b);
    if LineProblem(line, lineno, odd, p) {
      FencedIs(t, b, b, p);
      assert IsProblem(t, b, p);
    }
    if i :| 0 <= i < |line| && !IsFence(line) && !odd && BadAt(line[i..], OddTicks(line[..i]), lineno, p) {
      MalformedIs(t, b, i, p);
      var q: nat := b + i;
      assert IsProblem(t, q, p);
    }
    if q: nat :| b <= q < b + |line| && IsProblem(t, q, p) {
      InLine(t, b, q - b);
      FencedIs(t, b, q, p);
      MalformedIs(t, b, q - b, p);
    }
  }

  /** The one problem of a fenced line. */
  ghost predicate LineProblem(line: string, lineno: nat, inFence: bool, p: Problem) {
    !IsFence(line) && inFence && HasStart(line) && p == Problem(lineno, InFence)
  }

  lemma {:induction false} LineBads(line: string, at: nat, lineno: nat, inFence: bool, p: Problem)
    ensures Bad(p) in LineItems(line, at, lineno, inFence) <==>
      (LineProblem(line, lineno, inFence, p) ||
       exists i :: 0 <= i < |line| && !IsFence(line) && !inFence && BadAt(line[i..], OddTicks(line[..i]), lineno, p))
  {
    hide IsFence, HasStart, Scan, BadAt, OddTicks;
    BadIff(line, at, lineno, p);
  }

  lemma {:induction false} FencedIs(t: string, b: nat, q: nat, p: Problem)
    requires b <= q < |t| && LineAt(t, b) == b && LineAt(t, q) == b
    ensures FencedComment(t, q, p) <==>
      q == b && LineProblem(RestLine(t[b..]), LineNumber(t, b), FencesBefore(t, b) % 2 == 1, p)
  {
    hide IsFence, HasStart, RestLine, LineNumber, FencesBefore, LineAt;
  }

  lemma {:induction false} ProblemsFrom(t: string, b: nat, p: Problem)
    requires b <= |t| && (b < |t| ==> LineAt(t, b) == b && (b > 0 ==> EndsLine(t[b - 1..])))
    ensures b < |t| ==>
      (Bad(p) in Items(t[b..], b, LineNumber(t, b), FencesBefore(t, b) % 2 == 1) <==>
        exists q: nat :: b <= q && IsProblem(t, q, p))
    ensures b == |t| ==> !exists q: nat :: b <= q && IsProblem(t, q, p)
    decreases |t| - b
  {
    hide IsFence, LineItems, Malformed, FencedComment, LineAt, LineNumber, FencesBefore, Items, EndsLine;
    forall q: nat | IsProblem(t, q, p) ensures q < |t| {
      ProblemInside(t, q, p);
    }
    if b < |t| {
      var rest, lineno, odd := t[b..], LineNumber(t, b), FencesBefore(t, b) % 2 == 1;
      var line := RestLine(rest);
      var n := |line|;
      NextLine(t, b);
      LineProblems(t, b, p);
      ItemsUnfold(rest, b, lineno, odd);
      assert rest[n..] == t[b + n..];
      if b + n < |t| { EndOfLine(t, b); } else { assert rest[n..] == ""; }
      ProblemsFrom(t, b + n, p);
      EmptyItems(b + n, lineno + 1, odd != IsFence(line));
      hide IsProblem;
      SplitPlaces(t, b, n, p);
    }
  }

  lemma {:induction false} ProblemInside(t: string, q: nat, p: Problem)
    requires IsProblem(t, q, p)
    ensures q < |t|
  {
    hide Unfenced, CodeAt, RestLine;
  }

  lemma {:induction false} SplitPlaces(t: string, b: nat, n: nat, p: Problem)
    ensures (exists q: nat :: b <= q && IsProblem(t, q, p)) <==>
      (ProblemWithin(t, b, n, p) || exists q: nat :: b + n <= q && IsProblem(t, q, p))
  {
    hide IsProblem;
  }

  /** The scan of a text reports exactly its malformed figure comments outside inline code and fenced blocks, and the
      lines of fenced blocks that hold one, each by its line. */
  lemma {:induction false} ProblemIff(t: string, p: Problem)
    ensures Bad(p) in Items(t, 0, 1, false) <==> exists q: nat :: IsProblem(t, q, p)
  {
    hide Items, IsProblem, EndsLine;
    ProblemsFrom(t, 0, p);
    assert t[0..] == t;
    EmptyItems(0, 1, false);
    assert LineNumber(t, 0) == 1 && FencesBefore(t, 0) == 0;
  }

  // ----- the markers of a text -----

  /** Marker `m` is what stands in the text: an opening comment that says its name and floor, the value, and a
      closing comment, in plain prose. */
  ghost predicate MarkerStands(t: string, m: Marker) {
    && m.start < m.valueStart <= |t| && OpensFigure(t[m.start..m.valueStart], m.name, m.floor) && m.floor != Some(0)
    && m.valueEnd < m.end <= |t| && ClosesFigure(t[m.valueEnd..m.end])
    && m.value == Slice(t, m.valueStart, m.valueEnd) && '\n' !in m.value
    && Unfenced(t, m.start) && !CodeAt(t, m.start) && m.line == LineNumber(t, m.start)
    && Unfenced(t, m.valueEnd) && !CodeAt(t, m.valueEnd)
  }

  lemma {:induction false} PairedMarkers(t: string, tokens: seq<Token>, pending: Option<Token>, m: Marker)
    requires pending.Some? ==> pending.value.Open? && IsToken(t, pending.value)
    requires forall k :: k in tokens ==> IsToken(t, k)
    requires m in PairUp(t, tokens, pending).markers
    ensures MarkerStands(t, m)
    decreases |tokens|
  {
    hide IsToken, MarkerStands, MarkerOf;
    assert forall k :: k in tokens[1..] ==> k in tokens;
    assert tokens[0] in tokens;
    if tokens[0].Open? {
      PairedMarkers(t, tokens[1..], Some(tokens[0]), m);
    } else if m in PairUp(t, tokens[1..], None).markers {
      PairedMarkers(t, tokens[1..], None, m);
    } else {
      assert m == MarkerOf(t, pending.value, tokens[0]);
      PairStands(t, pending.value, tokens[0]);
    }
  }

  lemma {:induction false} PairStands(t: string, o: Token, c: Token)
    requires o.Open? && c.Close? && IsToken(t, o) && IsToken(t, c) && '\n' !in MarkerOf(t, o, c).value
    ensures MarkerStands(t, MarkerOf(t, o, c))
  {
    hide OpensFigure, ClosesFigure, Unfenced, CodeAt, RestLine, LineNumber;
  }

  lemma {:induction false} TokenOfItem(items: seq<Item>, k: Token)
    ensures k in Tokens(items) <==> Tok(k) in items
  {
    if items != [] {
      TokenOfItem(items[1..], k);
      assert items == [items[0]] + items[1..];
    }
  }

  /** Every marker that is found stands in the text as it is said to. */
  lemma {:induction false} MarkerSays(t: string, m: Marker)
    requires m in FindMarkers(t).markers
    ensures MarkerStands(t, m)
  {
    hide IsToken, MarkerStands, Items, Tokens, PairUp;
    var items := Items(t, 0, 1, false);
    forall k | k in Tokens(items) ensures IsToken(t, k) {
      TokenOfItem(items, k);
      TokenIff(t, k);
    }
    PairedMarkers(t, Tokens(items), None, m);
  }

  /** In a text without problems, every figure comment outside inline code and fenced blocks opens a marker. */
  lemma {:induction false} OpeningFound(t: string, k: Token)
    requires Sound(t) && k.Open? && IsToken(t, k)
    ensures exists m ::
      m in FindMarkers(t).markers && m.name == k.name && m.floor == k.floor && m.start == k.start &&
        m.valueStart == k.end
  {
    hide IsToken, Items, FindMarkers, Tokens, Laid, OneLine, Sound;
    SoundAnatomy(t);
    TokenIff(t, k);
    var items := Items(t, 0, 1, false);
    TokenOfItem(items, k);
    var ts, ms := TokensOf(t), FindMarkers(t).markers;
    var i :| 0 <= i < |ts| && ts[i] == k;
    var j := i / 2;
    assert i == 2 * j;
    assert ms[j] == MarkerOf(t, ts[2 * j], ts[2 * j + 1]);
    assert ms[j] in ms;
  }

  // ----- one marker in plain prose -----

  /** Text on one line without marker comments or backticks. */
  ghost predicate Prose(s: string) {
    NoBreak(s) && '<' !in s && '`' !in s
  }

  /** A comment on one line. */
  lemma {:induction false} CommentScan(c: string, rest: string, at: nat, lineno: nat)
    requires KeywordLen(c + rest) != 0 && !Classify(c + rest).BadShape? && Classify(c + rest).len == |c|
    requires '`' !in c + rest
    ensures Scan(c + rest, |c|, false, at, lineno) == [ItemAt(c + rest, at, lineno)]
    ensures c != "" && c[0] == '<' && c[|c| - 1] == '>' && '`' !in c
  {
    hide KeywordLen, Classify, Scan;
    var u, n := c + rest, |c|;
    TokenInterior(u);
    GoodParts(u, n);
    assert forall i :: 0 < i < n ==> c[i] == u[i];
    ScanUnfold(u, n, false, at, lineno);
    assert forall i :: 0 <= i < n - 1 ==> u[1..][i] == u[i + 1];
    ScanNoAngle(u[1..], n - 1, false != (u[0] == '`'), at + 1, lineno);
    assert u[0] == '<' by { KeywordFirst(u); }
    assert [ItemAt(u, at, lineno)] + [] == [ItemAt(u, at, lineno)];
  }

  lemma {:induction false} KeywordFirst(u: string)
    requires KeywordLen(u) != 0
    ensures u != "" && u[0] == '<'
  {
    hide KeywordLen;
  }

  lemma {:induction false} GoodParts(u: string, n: nat)
    requires GoodLen(u, n)
    ensures 0 < n <= |u| && u[n - 1] == '>' && forall i :: 0 < i < n ==> u[i] != '<'
  {
  }

  /** What precedes the next comment gives nothing. */
  lemma {:induction false} ProseScan(w: string, u: string, at: nat, lineno: nat)
    requires Prose(w) && '`' !in u
    ensures Scan(w + u, |w + u|, false, at, lineno) == Scan(u, |u|, false, at + |w|, lineno)
  {
    hide Scan, NoBreak, OddTicks;
    var t := w + u;
    assert t[|w|..] == u && t[..|w|] == w;
    NoTicks(w);
    ScanSplit(t, |w|, |u|, false, at, lineno);
    ScanNoAngle(t, |w|, false, at, lineno);
    assert [] + Scan(u, |u|, false, at + |w|, lineno) == Scan(u, |u|, false, at + |w|, lineno);
  }

  lemma {:induction false} TokenScan(c: string, u: string, at: nat, lineno: nat)
    requires KeywordLen(c + u) != 0 && !Classify(c + u).BadShape? && Classify(c + u).len == |c|
    requires '`' !in c + u
    ensures Scan(c + u, |c + u|, false, at, lineno) ==
      [ItemAt(c + u, at, lineno)] + Scan(u, |u|, false, at + |c|, lineno)
  {
    hide Scan, KeywordLen, Classify, OddTicks;
    var t := c + u;
    CommentScan(c, u, at, lineno);
    assert t[|c|..] == u && t[..|c|] == c;
    NoTicks(c);
    ScanSplit(t, |c|, |u|, false, at, lineno);
  }

  lemma {:induction false} NothingScan(at: nat, lineno: nat)
    ensures Scan("", 0, false, at, lineno) == []
  {
  }

  /** The two tokens of one marker in a line of plain prose. */
  lemma {:induction false} PlainTokens(pre: string, c: string, v: string, d: string, post: string, name: string,
      floor: Option<nat>)
    requires Prose(pre) && Prose(v) && Prose(post) && '`' !in c && '`' !in d
    requires OpensFigure(c, name, floor) && floor != Some(0) && ClosesFigure(d)
    ensures var t := pre + (c + (v + (d + post))); var p, q := |pre| + |c|, |pre| + |c| + |v|;
      Scan(t, |t|, false, 0, 1) == [Tok(Open(name, floor, |pre|, p, 1)), Tok(Close(q, q + |d|, 1))]
  {
    hide Scan, KeywordLen, Classify, OpensFigure, ClosesFigure, NoBreak;
    var u3 := d + post;
    var u2 := v + u3;
    var u1 := c + u2;
    OpensRecognised(c, u2, name, floor);
    ClosesRecognised(d, post);
    ProseScan(pre, u1, 0, 1);
    TokenScan(c, u2, |pre|, 1);
    ProseScan(v, u3, |pre| + |c|, 1);
    TokenScan(d, post, |pre| + |c| + |v|, 1);
    assert post + "" == post;
    ProseScan(post, "", |pre| + |c| + |v| + |d|, 1);
    NothingScan(|pre| + |c| + |v| + |d| + |post|, 1);
    var a, b := Tok(Open(name, floor, |pre|, |pre| + |c|, 1)),
      Tok(Close(|pre| + |c| + |v|, |pre| + |c| + |v| + |d|, 1));
    assert [a] + ([b] + []) == [a, b];
  }

  /** A figure in a line of plain prose is found as the marker it says: with its name, its floor, its value and its
      place, and without a problem. */
  lemma {:induction false} PlainMarker(pre: string, c: string, v: string, d: string, post: string, name: string,
      floor: Option<nat>)
    requires Prose(pre) && Prose(v) && Prose(post) && NoBreak(c) && NoBreak(d)
    requires OpensFigure(c, name, floor) && floor != Some(0) && ClosesFigure(d)
    requires !IsFence(pre + (c + (v + (d + post))))
    ensures var t := pre + (c + (v + (d + post))); var p, q := |pre| + |c|, |pre| + |c| + |v|;
      FindMarkers(t) == Found([Marker(name, floor, |pre|, q + |d|, p, q, 1, v)], [])
  {
    hide Scan, OpensFigure, ClosesFigure, IsFence, NoBreak, LineLen, Items, PairUp;
    var t := pre + (c + (v + (d + post)));
    var p, q := |pre| + |c|, |pre| + |c| + |v|;
    NoTickIn(c, name, floor);
    NoTickInClosing(d);
    PlainTokens(pre, c, v, d, post, name, floor);
    UnbrokenJoin(d, post);
    UnbrokenJoin(v, d + post);
    UnbrokenJoin(c, v + (d + post));
    UnbrokenJoin(pre, c + (v + (d + post)));
    OnlyLine(t);
    assert t[..|t|] == t && t[|t|..] == "";
    CommentSome(c, name, floor);
    ItemsUnfold(t, 0, 1, false);
    EmptyItems(|t|, 2, false);
    var a, b := Open(name, floor, |pre|, p, 1), Close(q, q + |d|, 1);
    assert [Tok(a), Tok(b)] + [] == [Tok(a), Tok(b)];
    assert t[p..q] == v by { assert t[p..] == v + (d + post); }
    OnePair(t, a, b, v);
  }

  /** A reader sees its value in its place, and what masks the figures leaves a placeholder there. */
  lemma {:induction false} PlainReading(pre: string, c: string, v: string, d: string, post: string, name: string,
      floor: Option<nat>)
    requires Prose(pre) && Prose(v) && Prose(post) && NoBreak(c) && NoBreak(d)
    requires OpensFigure(c, name, floor) && floor != Some(0) && ClosesFigure(d)
    requires !IsFence(pre + (c + (v + (d + post))))
    ensures var t := pre + (c + (v + (d + post)));
      FigurePasses.Unwrapped(t) == pre + v + post && FigurePasses.Masked(t) == pre + "FIG" + post
  {
    hide OpensFigure, ClosesFigure, IsFence, NoBreak, FindMarkers;
    PlainMarker(pre, c, v, d, post, name, floor);
    var t, n := pre + (c + (v + (d + post))), |pre| + |c| + |v| + |d|;
    var m := Marker(name, floor, |pre|, n, |pre| + |c|, |pre| + |c| + |v|, 1, v);
    assert t[0..|pre|] == pre;
    assert t[n..|t|] == post by { assert t == (pre + c + v + d) + post; }
    assert [v][1..] == [] && ["FIG"][1..] == [] && WholeSpans([m]) == [Span(|pre|, n)] && [Span(|pre|, n)][1..] == [];
    assert Values([m]) == [v] && FigurePasses.Placeholders(1) == ["FIG"];
    assert Weave(t, 0, [Span(|pre|, n)], [v]) == pre + v + post;
    assert Weave(t, 0, [Span(|pre|, n)], ["FIG"]) == pre + "FIG" + post;
  }

  lemma {:induction false} NoTickIn(c: string, name: string, floor: Option<nat>)
    requires OpensFigure(c, name, floor) && floor != Some(0)
    ensures '`' !in c
  {
    hide KeywordLen, Classify, OpensFigure;
    assert c + "" == c;
    OpensRecognised(c, "", name, floor);
    TokenInterior(c);
    PlainThrough(c);
  }

  lemma {:induction false} NoTickInClosing(c: string)
    requires ClosesFigure(c)
    ensures '`' !in c
  {
    hide KeywordLen, Classify, ClosesFigure;
    assert c + "" == c;
    ClosesRecognised(c, "");
    TokenInterior(c);
    PlainThrough(c);
  }

  lemma {:induction false} PlainThrough(c: string)
    requires KeywordLen(c) != 0 && GoodLen(c, |c|)
    ensures '`' !in c
  {
    hide KeywordLen;
    KeywordFirst(c);
    assert forall j :: 0 < j < |c| ==> c[j] != '`';
  }

  lemma {:induction false} CommentSome(c: string, name: string, floor: Option<nat>)
    requires OpensFigure(c, name, floor)
    ensures c != ""
  {
    hide Blank, FigureText;
  }

  lemma {:induction false} UnbrokenJoin(a: string, b: string)
    requires NoBreak(a) && NoBreak(b)
    ensures NoBreak(a + b)
  {
    hide IsBreak;
  }

  lemma {:induction false} OnlyLine(t: string)
    requires NoBreak(t)
    ensures LineLen(t) == |t|
  {
    if t != "" {
      OnlyLine(t[1..]);
    }
  }

  lemma {:induction false} OnePair(t: string, a: Token, b: Token, v: string)
    requires Items(t, 0, 1, false) == [Tok(a), Tok(b)] && a.Open? && b.Close?
    requires a.end <= b.start <= |t| && t[a.end..b.start] == v && NoBreak(v)
    ensures FindMarkers(t) == Found([Marker(a.name, a.floor, a.start, b.end, a.end, b.start, a.line, v)], [])
  {
    hide Items, IsSpace;
    var one, two: seq<Item> := [Tok(b)], [Tok(a), Tok(b)];
    assert one[1..] == [] && two[1..] == one;
    assert Tokens(one) == [b] && Bads(one) == [];
    assert Tokens(two) == [a, b] && Bads(two) == [];
    assert [a, b][2..] == [];
    assert '\n' !in v by { if '\n' in v { NotUnbroken(v); } }
    PairUpTwo(t, [a, b]);
  }

  lemma {:induction false} NotUnbroken(v: string)
    requires '\n' in v
    ensures !NoBreak(v)
  {
    var i :| 0 <= i < |v| && v[i] == '\n';
    assert IsBreak(v[i]);
  }
}
