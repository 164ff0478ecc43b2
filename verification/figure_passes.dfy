/** The passes over a claim file as loops: finding the markers, unwrapping them, masking them. */
module FigurePasses {
  import opened Wrappers
  import opened FigureMarkers
  import opened FigureScan
  import opened FigureRewrite

  // ----- inline code spans -----

  predicate InSpan(spans: seq<Span>, p: nat) {
    exists k :: 0 <= k < |spans| && spans[k].from <= p < spans[k].to
  }

  /** Odd number of backticks before, another one after. */
  ghost predicate InCode(line: string, p: nat)
    requires p <= |line|
  {
    OddTicks(line[..p]) && '`' in line[p..]
  }

  /** The spans describe inline code up to `pos`. */
  ghost predicate SpansUpTo(line: string, spans: seq<Span>, pos: nat)
    requires pos <= |line|
  {
    && (forall k :: 0 <= k < |spans| ==> spans[k].to <= pos)
    && forall p :: 0 <= p < pos && line[p] != '`' ==> (InSpan(spans, p) <==> InCode(line, p))
  }

  lemma {:induction false} OddPrefix(line: string, p: nat, q: nat)
    requires p <= q <= |line| && forall k :: p <= k < q ==> line[k] != '`'
    ensures OddTicks(line[..q]) == OddTicks(line[..p])
  {
    assert line[..q] == line[..p] + line[p..q];
    OddConcat(line[..p], line[p..q]);
    NoTicks(line[p..q]);
  }

  lemma {:induction false} OddFlip(line: string, p: nat)
    requires p < |line| && line[p] == '`'
    ensures OddTicks(line[..p + 1]) == !OddTicks(line[..p])
  {
    assert line[..p + 1] == line[..p] + [line[p]];
    OddConcat(line[..p], [line[p]]);
    assert OddTicks([line[p]]) == !OddTicks([]);
  }

  /** No span starts in a stretch without backticks that an even number precede. */
  lemma {:induction false} ExtendPlain(line: string, spans: seq<Span>, pos: nat, i: nat)
    requires pos <= i <= |line| && SpansUpTo(line, spans, pos)
    requires forall k :: pos <= k < i ==> line[k] != '`'
    requires !OddTicks(line[..pos]) || '`' !in line[pos..]
    ensures SpansUpTo(line, spans, i)
  {
    hide OddTicks;
    forall p | pos <= p < i ensures !InSpan(spans, p) && !InCode(line, p) {
      OddPrefix(line, pos, p);
      assert line[p..] == line[pos..][p - pos..];
    }
  }

  lemma {:induction false} ExtendSpan(line: string, spans: seq<Span>, i: nat, j: nat)
    requires i < j < |line| && SpansUpTo(line, spans, i) && !OddTicks(line[..i])
    requires line[i] == '`' && line[j] == '`' && forall k :: i < k < j ==> line[k] != '`'
    ensures SpansUpTo(line, spans + [Span(i, j + 1)], j + 1)
    ensures !OddTicks(line[..j + 1])
  {
    hide OddTicks;
    var spans' := spans + [Span(i, j + 1)];
    OddFlip(line, i);
    OddPrefix(line, i + 1, j);
    OddFlip(line, j);
    assert spans'[|spans|] == Span(i, j + 1);
    forall p | 0 <= p < j + 1 && line[p] != '`' ensures InSpan(spans', p) <==> InCode(line, p) {
      if p < i {
        assert InSpan(spans', p) <==> InSpan(spans, p) by {
          assert forall k :: 0 <= k < |spans| ==> spans'[k] == spans[k];
        }
      } else {
        OddPrefix(line, i + 1, p);
        assert line[p..][j - p] == '`';
      }
    }
  }

  lemma {:induction false} ExtendTick(line: string, spans: seq<Span>, i: nat)
    requires i < |line| && SpansUpTo(line, spans, i) && line[i] == '`'
    ensures SpansUpTo(line, spans, i + 1)
  {
  }

  /** A newline ends the line, so it is its last character. */
  ghost predicate OneNewline(line: string) {
    forall k :: 0 <= k < |line| && line[k] == '\n' ==> k == |line| - 1
  }

  /** `INLINE_CODE.finditer`: leftmost pairs of backticks with no backtick or newline between. */
  method CodeSpans(line: string) returns (spans: seq<Span>)
    requires OneNewline(line)
    ensures forall p :: 0 <= p < |line| && line[p] != '`' ==> (InSpan(spans, p) <==> InCode(line, p))
  {
    spans := [];
    var pos := 0;
    while pos < |line|
      invariant pos <= |line| && SpansUpTo(line, spans, pos)
      invariant !OddTicks(line[..pos]) || '`' !in line[pos..]
    {
      hide OddTicks, SpansUpTo, Find, OneNewline, InSpan, InCode;
      var i := Find(line, pos, '`');
      ExtendPlain(line, spans, pos, i);
      OddPrefix(line, pos, i);
      if i == |line| {
        pos := i;
      } else {
        var j := Find(line, i + 1, '`');
        var k := Find(line, i + 1, '\n');
        Between(line, pos, i, j, k);
        if j < k {
          ExtendSpan(line, spans, i, j);
          spans := spans + [Span(i, j + 1)];
          pos := j + 1;
        } else {
          ExtendTick(line, spans, i);
          pos := i + 1;
        }
      }
    }
  }

  /** A backtick with no partner before the newline has none after it. */
  lemma {:induction false} Between(line: string, pos: nat, i: nat, j: nat, k: nat)
    requires OneNewline(line) && pos <= i < |line| && line[i] == '`'
    requires j == Find(line, i + 1, '`') && k == Find(line, i + 1, '\n')
    ensures '`' in line[pos..]
    ensures j >= k ==> '`' !in line[i + 1..]
    ensures j < k ==> j < |line| && line[j] == '`' && forall m :: i < m < j ==> line[m] != '`'
  {
    assert line[pos..][i - pos] == '`';
  }

  // ----- the scan -----

  lemma {:induction false} HereNoKeyword(u: string, odd: bool, at: nat, lineno: nat)
    requires KeywordLen(u) == 0
    ensures Here(u, odd, at, lineno) == []
  {
    hide KeywordLen, Classify;
  }

  ghost predicate NoKeyword(u: string, n: nat)
    requires n <= |u|
  {
    forall i :: 0 <= i < n ==> KeywordLen(u[i..]) == 0
  }

  lemma {:induction false} NoKeywordTail(u: string, n: nat)
    requires 0 < n <= |u| && NoKeyword(u, n)
    ensures KeywordLen(u) == 0 && NoKeyword(u[1..], n - 1)
  {
    hide KeywordLen;
    assert u[0..] == u;
    forall i | 0 <= i < n - 1 ensures KeywordLen(u[1..][i..]) == 0 {
      assert u[1..][i..] == u[i + 1..];
    }
  }

  /** Positions without a keyword contribute nothing. */
  lemma {:induction false} ScanSkip(u: string, n: nat, m: nat, odd: bool, at: nat, lineno: nat)
    requires n <= m <= |u| && NoKeyword(u, n)
    ensures Scan(u, m, odd, at, lineno) == Scan(u[n..], m - n, odd != OddTicks(u[..n]), at + n, lineno)
    decreases n
  {
    hide Here, KeywordLen, NoKeyword;
    if n == 0 {
      assert u[n..] == u;
    } else {
      hide Scan;
      NoKeywordTail(u, n);
      HereNoKeyword(u, odd, at, lineno);
      ScanUnfold(u, m, odd, at, lineno);
      ScanSkip(u[1..], n - 1, m - 1, odd != (u[0] == '`'), at + 1, lineno);
      assert u[1..][n - 1..] == u[n..];
      assert u[..n][1..] == u[1..][..n - 1];
    }
  }

  /** A keyword holds no other keyword. */
  lemma {:induction false} KeywordAlone(u: string, i: nat)
    requires KeywordLen(u) != 0 && 0 < i < KeywordLen(u)
    ensures KeywordLen(u[i..]) == 0
  {
    KeywordPlain(u);
    hide IsWord, IsSpace, At;
    assert u[i..][0] == u[i];
    if At(u[i..], 0, "<!--") {
      FirstChar(u[i..]);
    }
  }

  lemma {:induction false} FirstChar(u: string)
    requires At(u, 0, "<!--")
    ensures u[0] == '<'
  {
    assert u[0] == u[0..4][0];
  }

  /** The keyword found at `p` was or was not taken; scanning goes on after it. */
  lemma {:induction false} ScanKeyword(u: string, odd: bool, at: nat, lineno: nat)
    requires KeywordLen(u) != 0
    ensures var k := KeywordLen(u);
      Scan(u, |u|, odd, at, lineno)
      == Here(u, odd, at, lineno) + Scan(u[k..], |u| - k, odd != OddTicks(u[..k]), at + k, lineno)
  {
    hide KeywordLen, Scan, Here, OddTicks;
    var k := KeywordLen(u);
    forall i | 0 <= i < k - 1 ensures KeywordLen(u[1..][i..]) == 0 {
      KeywordAlone(u, i + 1);
      assert u[1..][i..] == u[i + 1..];
    }
    assert NoKeyword(u[1..], k - 1);
    ScanUnfold(u, |u|, odd, at, lineno);
    ScanSkip(u[1..], k - 1, |u| - 1, odd != (u[0] == '`'), at + 1, lineno);
    assert u[1..][k - 1..] == u[k..];
    assert u[..k] == [u[0]] + u[1..][..k - 1];
    OddConcat([u[0]], u[1..][..k - 1]);
    assert OddTicks([u[0]]) == (u[0] == '`') by { OddOne(u[0]); }
  }

  lemma {:induction false} OddOne(c: char)
    ensures OddTicks([c]) == (c == '`')
  {
    assert [c][1..] == "";
  }

  /** First position at or after `pos` where the keyword matches. */
  method NextStart(line: string, pos: nat) returns (p: nat)
    requires pos <= |line|
    ensures pos <= p <= |line| && NoKeyword(line[pos..], p - pos)
    ensures p < |line| ==> KeywordLen(line[p..]) != 0
  {
    hide KeywordLen;
    p := pos;
    while p < |line| && KeywordLen(line[p..]) == 0
      invariant pos <= p <= |line| && NoKeyword(line[pos..], p - pos)
    {
      assert line[pos..][p - pos..] == line[p..];
      p := p + 1;
    }
  }

  /** What is left to scan of a line after `pos`. */
  ghost function RestOfLine(line: string, pos: nat, offset: nat, lineno: nat): seq<Item>
    requires pos <= |line|
  {
    Scan(line[pos..], |line| - pos, OddTicks(line[..pos]), offset + pos, lineno)
  }

  lemma {:induction false} RestSkip(line: string, pos: nat, p: nat, offset: nat, lineno: nat)
    requires pos <= p <= |line| && NoKeyword(line[pos..], p - pos)
    ensures RestOfLine(line, pos, offset, lineno) == RestOfLine(line, p, offset, lineno)
  {
    hide Scan, OddTicks, NoKeyword;
    ScanSkip(line[pos..], p - pos, |line| - pos, OddTicks(line[..pos]), offset + pos, lineno);
    assert line[pos..][p - pos..] == line[p..];
    assert line[..p] == line[..pos] + line[pos..][..p - pos];
    OddConcat(line[..pos], line[pos..][..p - pos]);
  }

  lemma {:induction false} HereIf(line: string, p: nat, offset: nat, lineno: nat)
    requires p <= |line| && KeywordLen(line[p..]) != 0
    ensures Here(line[p..], OddTicks(line[..p]), offset + p, lineno)
         == if InCode(line, p) then [] else [ItemAt(line[p..], offset + p, lineno)]
  {
    hide KeywordLen, ItemAt, OddTicks;
  }

  lemma {:induction false} RestTake(line: string, p: nat, offset: nat, lineno: nat)
    requires p <= |line| && KeywordLen(line[p..]) != 0
    ensures var u := line[p..];
      RestOfLine(line, p, offset, lineno)
      == (if InCode(line, p) then [] else [ItemAt(u, offset + p, lineno)]) +
        RestOfLine(line, p + KeywordLen(u), offset, lineno)
  {
    hide Scan, OddTicks, KeywordLen, Here, ItemAt, InCode;
    var u := line[p..];
    HereIf(line, p, offset, lineno);
    var k := KeywordLen(u);
    ScanKeyword(u, OddTicks(line[..p]), offset + p, lineno);
    assert u[k..] == line[p + k..];
    assert line[..p + k] == line[..p] + u[..k];
    OddConcat(line[..p], u[..k]);
  }

  lemma {:induction false} ListsStep(a: seq<Item>)
    requires a != []
    ensures Tokens(a) == (if a[0].Tok? then [a[0].token] else []) + Tokens(a[1..])
    ensures Bads(a) == (if a[0].Bad? then [a[0].problem] else []) + Bads(a[1..])
  {
  }

  lemma {:induction false} ListsNone()
    ensures Tokens([]) == [] && Bads([]) == []
  {
  }

  lemma {:induction false} TokensConcat(a: seq<Item>, b: seq<Item>)
    ensures Tokens(a + b) == Tokens(a) + Tokens(b)
  {
    hide Tokens, Bads;
    if a == [] {
      ListsNone();
      assert a + b == b && [] + Tokens(b) == Tokens(b);
    } else {
      ListsStep(a);
      ListsStep(a + b);
      TokensConcat(a[1..], b);
      assert (a + b)[1..] == a[1..] + b;
    }
  }

  lemma {:induction false} BadsConcat(a: seq<Item>, b: seq<Item>)
    ensures Bads(a + b) == Bads(a) + Bads(b)
  {
    hide Tokens, Bads;
    if a == [] {
      ListsNone();
      assert a + b == b && [] + Bads(b) == Bads(b);
    } else {
      ListsStep(a);
      ListsStep(a + b);
      BadsConcat(a[1..], b);
      assert (a + b)[1..] == a[1..] + b;
    }
  }

  lemma {:induction false} ListsOne(i: Item)
    ensures Tokens([i]) == (if i.Tok? then [i.token] else []) && Bads([i]) == (if i.Bad? then [i.problem] else [])
  {
    assert [i][1..] == [];
  }

  lemma {:induction false} ListsAdd(a: seq<Item>, i: Item)
    ensures Tokens(a + [i]) == Tokens(a) + (if i.Tok? then [i.token] else [])
    ensures Bads(a + [i]) == Bads(a) + (if i.Bad? then [i.problem] else [])
  {
    TokensConcat(a, [i]);
    BadsConcat(a, [i]);
    ListsOne(i);
  }

  /** The inner loop over one unfenced line. */
  method ScanLine(line: string, offset: nat, lineno: nat) returns (tokens: seq<Token>, problems: seq<Problem>)
    requires OneNewline(line)
    ensures var items := Scan(line, |line|, false, offset, lineno); tokens == Tokens(items) && problems == Bads(items)
  {
    hide KeywordLen, Classify, Scan, OddTicks, InCode, Tokens, Bads, NoKeyword, InSpan;
    var spans := CodeSpans(line);
    var pos := 0;
    ghost var done: seq<Item> := [];
    tokens, problems := [], [];
    EmptyLists();
    assert line[0..] == line;
    assert RestOfLine(line, 0, offset, lineno) == Scan(line, |line|, false, offset, lineno) by { NoOdd(line); }
    while pos < |line|
      invariant pos <= |line|
      invariant done + RestOfLine(line, pos, offset, lineno) == Scan(line, |line|, false, offset, lineno)
      invariant tokens == Tokens(done) && problems == Bads(done)
    {
      var p := NextStart(line, pos);
      RestSkip(line, pos, p, offset, lineno);
      if p == |line| {
        pos := p;
      } else {
        assert line[p..][0] == '<' && line[p] == '<';
        RestTake(line, p, offset, lineno);
        if !InSpan(spans, p) {
          var item := ItemAt(line[p..], offset + p, lineno);
          ListsAdd(done, item);
          done := done + [item];
          match item
          case Tok(t) => tokens := tokens + [t];
          case Bad(b) => problems := problems + [b];
        }
        pos := p + KeywordLen(line[p..]);
      }
    }
    RestEnd(line, offset, lineno);
    assert done + [] == done;
  }

  lemma {:induction false} EmptyLists()
    ensures Tokens([]) == [] && Bads([]) == []
  {
  }

  lemma {:induction false} NoOdd(line: string)
    ensures !OddTicks(line[..0])
  {
  }

  lemma {:induction false} RestEnd(line: string, offset: nat, lineno: nat)
    ensures RestOfLine(line, |line|, offset, lineno) == []
  {
  }

  lemma {:induction false} LineNewline(t: string)
    requires t != ""
    ensures OneNewline(t[..LineLen(t)])
  {
    LineLenEnd(t);
  }

  /** The scan over the lines, with the fence state and the running offset. */
  method ScanText(text: string) returns (tokens: seq<Token>, problems: seq<Problem>)
    ensures var items := Items(text, 0, 1, false); tokens == Tokens(items) && problems == Bads(items)
  {
    hide LineLen, Scan, IsFence, HasStart, Items, Tokens, Bads, OneNewline;
    tokens, problems := [], [];
    var offset, lineno, inFence := 0, 1, false;
    ghost var done: seq<Item> := [];
    EmptyLists();
    assert text[0..] == text;
    while offset < |text|
      invariant offset <= |text|
      invariant done + Items(text[offset..], offset, lineno, inFence) == Items(text, 0, 1, false)
      invariant tokens == Tokens(done) && problems == Bads(done)
    {
      var rest := text[offset..];
      var line := rest[..LineLen(rest)];
      LineNewline(rest);
      ItemsUnfold(rest, offset, lineno, inFence);
      ghost var items := LineItems(line, offset, lineno, inFence);
      TokensConcat(done, items);
      BadsConcat(done, items);
      assert rest[LineLen(rest)..] == text[offset + |line|..];
      if IsFence(line) {
        EmptyLists();
        inFence := !inFence;
      } else if inFence {
        if HasStart(line) {
          ListsOne(Bad(Problem(lineno, InFence)));
          problems := problems + [Problem(lineno, InFence)];
        } else {
          EmptyLists();
        }
      } else {
        var ts, ps := ScanLine(line, offset, lineno);
        tokens, problems := tokens + ts, problems + ps;
      }
      done := done + items;
      offset, lineno := offset + |line|, lineno + 1;
    }
    assert text[offset..] == "";
    ItemsEmpty(offset, lineno, inFence);
    assert done + [] == done;
  }

  lemma {:induction false} ItemsEmpty(at: nat, lineno: nat, inFence: bool)
    ensures Items("", at, lineno, inFence) == []
  {
  }

  /** Handle one token: the opening token still pending, and what is appended to the lists. */
  method PairToken(text: string, t: Token, pending: Option<Token>, ghost rest: seq<Token>)
    returns (pending': Option<Token>, ms: seq<Marker>, ps: seq<Problem>)
    requires pending.Some? ==> pending.value.Open?
    ensures pending'.Some? ==> pending'.value.Open?
    ensures var f, g := PairUp(text, [t] + rest, pending), PairUp(text, rest, pending');
      f == Found(ms + g.markers, ps + g.problems)
  {
    hide MarkerOf;
    assert ([t] + rest)[1..] == rest;
    ms, ps := [], [];
    match t {
      case Open(_, _, _, _, line) =>
        if pending.Some? {
          ps := [Problem(line, Nested(pending.value.line))];
        }
        pending' := Some(t);
      case Close(_, _, line) =>
        pending' := None;
        if pending.None? {
          ps := [Problem(line, CloseWithoutOpen)];
        } else {
          var m := MarkerOf(text, pending.value, t);
          if '\n' in m.value {
            ps := [Problem(m.line, SpansLines)];
          } else {
            ms := [m];
          }
        }
    }
  }

  /** `find_markers`: the scan, then the pairing loop with its pending opening token. */
  method FindMarkers(text: string) returns (markers: seq<Marker>, problems: seq<Problem>)
    ensures Found(markers, problems) == FigureMarkers.FindMarkers(text)
  {
    hide Items, Tokens, Bads;
    var tokens, structural := ScanText(text);
    markers, problems := [], structural;
    var pending: Option<Token> := None;
    var i := 0;
    ghost var whole := PairUp(text, tokens, None);
    assert tokens[0..] == tokens;
    while i < |tokens|
      invariant i <= |tokens| && (pending.Some? ==> pending.value.Open?)
      invariant var f := PairUp(text, tokens[i..], pending);
        whole.markers == markers + f.markers && structural + whole.problems == problems + f.problems
    {
      hide PairUp;
      ghost var rest := tokens[i + 1..];
      assert tokens[i..] == [tokens[i]] + rest;
      ghost var g := PairUp(text, tokens[i..], pending);
      var pending', ms, ps := PairToken(text, tokens[i], pending, rest);
      ghost var f := PairUp(text, rest, pending');
      assert markers + (ms + f.markers) == markers + ms + f.markers;
      assert problems + (ps + f.problems) == problems + ps + f.problems;
      pending, markers, problems := pending', markers + ms, problems + ps;
      i := i + 1;
    }
    if pending.Some? {
      problems := problems + [Problem(pending.value.line, NeverClosed)];
    }
  }

  // ----- unwrapping and masking -----

  function Placeholders(n: nat): seq<string> {
    seq(n, i => "FIG")
  }

  /** The text a reader sees. */
  function Unwrapped(text: string): string {
    var ms := FigureMarkers.FindMarkers(text).markers;
    Weave(text, 0, WholeSpans(ms), Values(ms))
  }

  /** The text that no marker owns. */
  function Masked(text: string): string {
    var ms := FigureMarkers.FindMarkers(text).markers;
    Weave(text, 0, WholeSpans(ms), Placeholders(|ms|))
  }

  /** The loop both passes share: `out` collects pieces and fillings, `last` is the cursor. */
  method WeaveLoop(text: string, spans: seq<Span>, fills: seq<string>) returns (out: string)
    requires |spans| == |fills|
    ensures out == Weave(text, 0, spans, fills)
  {
    out := "";
    var last := 0;
    var i := 0;
    assert spans[0..] == spans && fills[0..] == fills;
    while i < |spans|
      invariant i <= |spans|
      invariant out + Weave(text, last, spans[i..], fills[i..]) == Weave(text, 0, spans, fills)
    {
      WeaveStep(text, last, spans, fills, i);
      out := out + Slice(text, last, spans[i].from);
      out := out + fills[i];
      last := spans[i].to;
      i := i + 1;
    }
    out := out + Slice(text, last, |text|);
  }

  method UnwrapMarkers(text: string) returns (out: string)
    ensures out == Unwrapped(text)
  {
    var markers, _ := FindMarkers(text);
    out := WeaveLoop(text, WholeSpans(markers), Values(markers));
  }

  method MaskMarkers(text: string) returns (out: string)
    ensures out == Masked(text)
  {
    var markers, _ := FindMarkers(text);
    out := WeaveLoop(text, WholeSpans(markers), Placeholders(|markers|));
  }

  /** A rewrite of the marker values leaves the masked text alone, and the reader's text
      changes exactly in the values. */
  lemma {:induction false} RewriteKeepsMask(text: string, fills: seq<string>)
    requires EmptiesWell(text)
    requires |fills| == |FigureMarkers.FindMarkers(text).markers| && forall j :: 0 <= j < |fills| ==> Clean(fills[j])
    ensures var ms := FigureMarkers.FindMarkers(text).markers; var t := Weave(text, 0, ValueSpans(ms), fills);
      Masked(t) == Masked(text) && Unwrapped(t) == Weave(text, 0, WholeSpans(ms), fills)
  {
    hide Sound, FigureMarkers.FindMarkers, Clean, Weave, SamePieces, Holding;
    var ms := FigureMarkers.FindMarkers(text).markers;
    EmptyFills(|ms|);
    RescansAny(text, Empties(|ms|), fills);
    var t := Weave(text, 0, ValueSpans(ms), fills);
    var ms' := FigureMarkers.FindMarkers(t).markers;
    HoldingValues(ms, ms', fills);
    WeaveSame(text, WholeSpans(ms), t, WholeSpans(ms'), Placeholders(|ms|), 0);
    WeaveSame(text, WholeSpans(ms), t, WholeSpans(ms'), fills, 0);
    assert WholeSpans(ms)[0..] == WholeSpans(ms) && WholeSpans(ms')[0..] == WholeSpans(ms');
    assert fills[0..] == fills && Placeholders(|ms|)[0..] == Placeholders(|ms|);
  }
}
