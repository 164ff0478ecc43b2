/** Rewriting marker values: one replacement, all replacements, and what a second scan of the
    rewritten text finds. */
module FigureRewrite {
  import opened Wrappers
  import opened FigureMarkers
  import opened FigureScan

  // ----- the markers of a text without problems -----

  ghost predicate Sound(text: string) {
    FindMarkers(text).problems == []
  }

  ghost predicate Paired(tokens: seq<Token>) {
    |tokens| % 2 == 0
    && forall i :: 0 <= i < |tokens| ==> (tokens[i].Open? <==> i % 2 == 0)
  }

  ghost predicate OneLine(text: string, tokens: seq<Token>)
    requires Paired(tokens)
  {
    forall j :: 0 <= j < |tokens| / 2 ==> '\n' !in MarkerOf(text, tokens[2 * j], tokens[2 * j + 1]).value
  }

  ghost predicate MarkersFrom(text: string, tokens: seq<Token>, ms: seq<Marker>)
    requires Paired(tokens)
  {
    |ms| == |tokens| / 2
    && forall j :: 0 <= j < |ms| ==> ms[j] == MarkerOf(text, tokens[2 * j], tokens[2 * j + 1])
  }

  lemma {:induction false} PairUpTwo(text: string, tokens: seq<Token>)
    requires |tokens| >= 2 && tokens[0].Open? && tokens[1].Close?
    ensures var f, g := PairUp(text, tokens, None), PairUp(text, tokens[2..], None);
      var m := MarkerOf(text, tokens[0], tokens[1]);
      f == if '\n' in m.value then Found(g.markers, [Problem(m.line, SpansLines)] + g.problems)
           else Found([m] + g.markers, g.problems)
  {
    assert tokens[1..][1..] == tokens[2..];
  }

  /** Without problems, the tokens alternate and every pair is a marker. */
  lemma {:induction false} PairUpSound(text: string, tokens: seq<Token>)
    requires PairUp(text, tokens, None).problems == []
    ensures Paired(tokens) && OneLine(text, tokens)
    ensures MarkersFrom(text, tokens, PairUp(text, tokens, None).markers)
    decreases |tokens|
  {
    if tokens != [] {
      assert tokens[0].Open?;
      assert |tokens| >= 2;
      assert tokens[1] == tokens[1..][0];
      assert tokens[1].Close?;
      PairUpTwo(text, tokens);
      hide PairUp, MarkerOf;
      PairUpSound(text, tokens[2..]);
      AddPair(text, tokens, PairUp(text, tokens[2..], None).markers);
    }
  }

  lemma {:induction false} AddPair(text: string, tokens: seq<Token>, ms: seq<Marker>)
    requires |tokens| >= 2 && tokens[0].Open? && tokens[1].Close?
    requires var rest := tokens[2..]; Paired(rest) && OneLine(text, rest) && MarkersFrom(text, rest, ms)
    requires '\n' !in MarkerOf(text, tokens[0], tokens[1]).value
    ensures Paired(tokens) && OneLine(text, tokens)
    ensures MarkersFrom(text, tokens, [MarkerOf(text, tokens[0], tokens[1])] + ms)
  {
    hide MarkerOf;
    var rest := tokens[2..];
    assert forall i :: 2 <= i < |tokens| ==> tokens[i] == rest[i - 2];
    var ms' := [MarkerOf(text, tokens[0], tokens[1])] + ms;
    forall j | 0 <= j < |tokens| / 2 ensures ms'[j] == MarkerOf(text, tokens[2 * j], tokens[2 * j + 1]) {
      if j > 0 {
        assert tokens[2 * j] == rest[2 * (j - 1)] && tokens[2 * j + 1] == rest[2 * (j - 1) + 1];
        assert ms'[j] == ms[j - 1];
      }
    }
    forall j | 0 < j < |tokens| / 2 ensures '\n' !in MarkerOf(text, tokens[2 * j], tokens[2 * j + 1]).value {
      assert tokens[2 * j] == rest[2 * (j - 1)] && tokens[2 * j + 1] == rest[2 * (j - 1) + 1];
    }
  }

  /** And conversely. */
  lemma {:induction false} PairUpFrom(text: string, tokens: seq<Token>)
    requires Paired(tokens) && OneLine(text, tokens)
    ensures PairUp(text, tokens, None).problems == []
    decreases |tokens|
  {
    if tokens != [] {
      assert tokens[0].Open? && !tokens[1].Open?;
      PairUpTwo(text, tokens);
      hide PairUp, MarkerOf;
      var rest := tokens[2..];
      assert forall i :: 0 <= i < |rest| ==> rest[i] == tokens[i + 2];
      assert Paired(rest) by {
        forall i | 0 <= i < |rest| ensures rest[i].Open? <==> i % 2 == 0 { assert (i + 2) % 2 == i % 2; }
      }
      forall j | 0 <= j < |rest| / 2 ensures '\n' !in MarkerOf(text, rest[2 * j], rest[2 * j + 1]).value {
        assert rest[2 * j] == tokens[2 * (j + 1)] && rest[2 * j + 1] == tokens[2 * (j + 1) + 1];
      }
      assert '\n' !in MarkerOf(text, tokens[2 * 0], tokens[2 * 0 + 1]).value;
      PairUpFrom(text, rest);
    }
  }

  lemma {:induction false} AllTokens(items: seq<Item>)
    ensures Bads(items) == [] <==> AllTok(items)
    ensures AllTok(items) ==> |Tokens(items)| == |items| && forall i :: 0 <= i < |items| ==>
      Tokens(items)[i] == items[i].token
  {
    if items != [] {
      AllTokens(items[1..]);
      assert forall i :: 0 < i < |items| ==> items[i] == items[1..][i - 1];
    }
  }

  ghost function TokensOf(text: string): seq<Token> {
    Tokens(Items(text, 0, 1, false))
  }

  /** The tokens follow one another without overlap. */
  ghost predicate Laid(text: string, tokens: seq<Token>) {
    (forall i :: 0 <= i < |tokens| ==> Placed(text, 0, tokens[i]))
    && forall i, j :: 0 <= i < j < |tokens| ==> tokens[i].end <= tokens[j].start
  }

  lemma {:induction false} LaidTokens(text: string)
    requires AllTok(Items(text, 0, 1, false))
    ensures Laid(text, TokensOf(text))
  {
    hide Items, Tokens, Bads, Placed;
    var items := Items(text, 0, 1, false);
    AllTokens(items);
    forall i | 0 <= i < |items| ensures Placed(text, 0, items[i].token) {
      ItemsPlaced(text, 0, 1, false, i);
    }
    forall i, j | 0 <= i < j < |items| ensures items[i].token.end <= items[j].token.start {
      ItemsAscend(text, 0, 1, false, i, j);
      NoOverlap(text, items[i].token, items[j].token);
    }
  }

  lemma {:induction false} NoOverlap(text: string, a: Token, b: Token)
    requires Placed(text, 0, a) && Placed(text, 0, b) && a.start < b.start
    ensures a.end <= b.start
  {
  }

  /** Everything known about a text without problems. */
  ghost predicate Anatomy(text: string, items: seq<Item>, tokens: seq<Token>, ms: seq<Marker>) {
    && AllTok(items) && |tokens| == |items| && (forall i :: 0 <= i < |items| ==> tokens[i] == items[i].token)
    && Laid(text, tokens) && Paired(tokens) && OneLine(text, tokens) && MarkersFrom(text, tokens, ms)
  }

  lemma {:induction false} SoundAnatomy(text: string)
    requires Sound(text)
    ensures Anatomy(text, Items(text, 0, 1, false), TokensOf(text), FindMarkers(text).markers)
  {
    hide Items, PairUp, Laid, Paired, OneLine, MarkersFrom, Tokens, Bads;
    var items := Items(text, 0, 1, false);
    var f := PairUp(text, Tokens(items), None);
    assert Bads(items) == [] && f.problems == [] by { assert |Bads(items) + f.problems| == 0; }
    AllTokens(items);
    LaidTokens(text);
    PairUpSound(text, Tokens(items));
  }

  lemma {:induction false} AnatomySound(text: string, tokens: seq<Token>)
    requires AllTok(Items(text, 0, 1, false)) && tokens == TokensOf(text) && Paired(tokens) && OneLine(text, tokens)
    ensures Sound(text) && MarkersFrom(text, tokens, FindMarkers(text).markers)
  {
    hide Items, PairUp, Paired, OneLine, MarkersFrom, Tokens, Bads;
    AllTokens(Items(text, 0, 1, false));
    PairUpFrom(text, tokens);
    PairUpSound(text, tokens);
  }

  // ----- weaving -----

  /** A stretch of text that a cursor-based rewrite replaces. */
  datatype Span = Span(from: nat, to: nat)

  /** The loop shared by the rewriter and the unwrapping and masking passes: copy up to each
      span, put its filling, continue after it. */
  function Weave(text: string, last: nat, spans: seq<Span>, fills: seq<string>): string
    requires |spans| == |fills|
    decreases |spans|
  {
    if spans == [] then Slice(text, last, |text|)
    else Slice(text, last, spans[0].from) + fills[0] + Weave(text, spans[0].to, spans[1..], fills[1..])
  }

  function ValueSpans(ms: seq<Marker>): seq<Span> {
    seq(|ms|, i requires 0 <= i < |ms| => Span(ms[i].valueStart, ms[i].valueEnd))
  }

  function WholeSpans(ms: seq<Marker>): seq<Span> {
    seq(|ms|, i requires 0 <= i < |ms| => Span(ms[i].start, ms[i].end))
  }

  function Values(ms: seq<Marker>): seq<string> {
    seq(|ms|, i requires 0 <= i < |ms| => ms[i].value)
  }

  /** The piece of text before span `j`, or after the last one. */
  ghost function Piece(text: string, spans: seq<Span>, j: nat): string
    requires j <= |spans|
  {
    Slice(text, if j == 0 then 0 else spans[j - 1].to, if j == |spans| then |text| else spans[j].from)
  }

  ghost predicate SamePieces(text: string, spans: seq<Span>, text': string, spans': seq<Span>) {
    |spans| == |spans'| && forall j :: 0 <= j <= |spans| ==> Piece(text, spans, j) == Piece(text', spans', j)
  }

  ghost predicate Within(text: string, spans: seq<Span>) {
    && (forall i :: 0 <= i < |spans| ==> spans[i].from <= spans[i].to <= |text|)
    && forall i, j :: 0 <= i < j < |spans| ==> spans[i].to <= spans[j].from
  }

  ghost predicate ValuesOnOneLine(ms: seq<Marker>) {
    forall i :: 0 <= i < |ms| ==> NoBreak(ms[i].value)
  }

  // ----- one replacement -----

  function Put(text: string, m: Marker, w: string): string {
    Slice(text, 0, m.valueStart) + w + Slice(text, m.valueEnd, |text|)
  }

  ghost predicate TokenMoved(a: Token, b: Token, d: int) { Moved(Tok(a), Tok(b), d) }

  /** The tokens of the text after marker `k`'s value was replaced. */
  ghost predicate TokensReplaced(ts: seq<Token>, ts': seq<Token>, k: nat, d: int) {
    |ts'| == |ts|
    && forall i :: 0 <= i < |ts| ==> if i <= 2 * k then ts'[i] == ts[i] else TokenMoved(ts[i], ts'[i], d)
  }

  lemma {:induction false} ReplacedTokens(items: seq<Item>, items': seq<Item>, k: nat, d: int)
    requires AllTok(items) && 2 * k < |items| && Replaced(items, items', 2 * k + 1, d)
    ensures AllTok(items') && TokensReplaced(Tokens(items), Tokens(items'), k, d)
  {
    hide Tokens, Bads;
    assert |items'| == |items|;
    forall i | 0 <= i < |items|
      ensures items'[i].Tok? &&
        if i <= 2 * k then items'[i] == items[i] else TokenMoved(items[i].token, items'[i].token, d)
    {
      if i <= 2 * k {
        assert items'[..2 * k + 1][i] == items[..2 * k + 1][i];
      } else {
        assert Moved(items[2 * k + 1..][i - 2 * k - 1], items'[2 * k + 1..][i - 2 * k - 1], d);
      }
    }
    AllTokens(items);
    AllTokens(items');
  }

  /** Cutting a laid-out text at one of its markers. */
  lemma {:induction false} CutAtMarker(text: string, items: seq<Item>, tokens: seq<Token>, ms: seq<Marker>, k: nat,
      w: string)
    requires Anatomy(text, items, tokens, ms) && k < |ms| && NoBreak(ms[k].value) && Clean(w)
    ensures var m := ms[k];
      m.valueStart <= m.valueEnd <= |text|
      && Edges(text[..m.valueStart], m.value, text[m.valueEnd..], w)
      && Around(items, 2 * k, m.valueStart, m.valueEnd)
      && text == text[..m.valueStart] + m.value + text[m.valueEnd..]
      && Put(text, m, w) == text[..m.valueStart] + w + text[m.valueEnd..]
  {
    hide NoBreak, Clean, OneLine;
    var o, c := tokens[2 * k], tokens[2 * k + 1];
    assert o.end <= c.start;
    assert Placed(text, 0, o) && Placed(text, 0, c);
  }

  lemma {:induction false} PairedMoved(ts: seq<Token>, ts': seq<Token>, k: nat, d: int)
    requires Paired(ts) && TokensReplaced(ts, ts', k, d)
    ensures Paired(ts')
  {
    forall i | 0 <= i < |ts'| ensures ts'[i].Open? <==> i % 2 == 0 {
      assert ts[i].Open? == ts'[i].Open?;
    }
  }

  /** How the markers of the rewritten text relate to the ones before. */
  ghost predicate MarkerAfter(a: Marker, b: Marker, j: nat, k: nat, d: int, w: string) {
    if j < k then b == a
    else
      && b.name == a.name && b.floor == a.floor && b.line == a.line
      && b.end == a.end + d && b.valueEnd == a.valueEnd + d
      && if j == k then b.start == a.start && b.valueStart == a.valueStart && b.value == w
         else b.start == a.start + d && b.valueStart == a.valueStart + d && b.value == a.value
  }

  /** `text'` is `text` with `[from, to)` replaced by `w`. */
  ghost predicate Swapped(text: string, text': string, from: nat, to: nat, w: string) {
    from <= to <= |text| && text' == text[..from] + w + text[to..]
  }

  lemma {:induction false} SliceBefore(text: string, text': string, from: nat, to: nat, w: string, a: nat, b: nat)
    requires Swapped(text, text', from, to, w) && b <= from
    ensures Slice(text', a, b) == Slice(text, a, b)
  {
  }

  lemma {:induction false} SliceAfter(text: string, text': string, from: nat, to: nat, w: string, a: nat, b: nat,
      a': nat, b': nat)
    requires Swapped(text, text', from, to, w) && to <= a
    requires a' == a + |w| - (to - from) && b' == b + |w| - (to - from)
    ensures Slice(text', a', b') == Slice(text, a, b)
  {
    if a <= b <= |text| {
      assert text'[a'..b'] == text[to..][a - to..b - to];
    }
  }

  lemma {:induction false} SliceMiddle(text: string, text': string, from: nat, to: nat, w: string)
    requires Swapped(text, text', from, to, w)
    ensures Slice(text', from, from + |w|) == w
  {
  }

  lemma {:induction false} OneMarkerAfter(text: string, text': string, ts: seq<Token>, ts': seq<Token>, k: nat,
      w: string, j: nat)
    requires Laid(text, ts) && Paired(ts) && Paired(ts') && 2 * k + 1 < |ts| && 2 * j + 1 < |ts|
    requires var from, to := ts[2 * k].end, ts[2 * k + 1].start;
      Swapped(text, text', from, to, w) && TokensReplaced(ts, ts', k, |w| - (to - from))
    ensures MarkerAfter(MarkerOf(text, ts[2 * j], ts[2 * j + 1]), MarkerOf(text', ts'[2 * j], ts'[2 * j + 1]), j, k,
                        |w| - (ts[2 * k + 1].start - ts[2 * k].end), w)
  {
    hide Placed;
    var from, to := ts[2 * k].end, ts[2 * k + 1].start;
    var o, c := ts[2 * j], ts[2 * j + 1];
    var o', c' := ts'[2 * j], ts'[2 * j + 1];
    if j < k {
      assert c.start <= ts[2 * k].start by { StartBeforeEnd(text, ts, 2 * j + 1); }
      StartBeforeEnd(text, ts, 2 * k);
      SliceBefore(text, text', from, to, w, o.end, c.start);
    } else if j == k {
      SliceMiddle(text, text', from, to, w);
    } else {
      assert ts[2 * k + 1].end <= o.start;
      StartBeforeEnd(text, ts, 2 * k + 1);
      StartBeforeEnd(text, ts, 2 * j);
      SliceAfter(text, text', from, to, w, o.end, c.start, o'.end, c'.start);
    }
  }

  lemma {:induction false} StartBeforeEnd(text: string, ts: seq<Token>, i: nat)
    requires Laid(text, ts) && i < |ts|
    ensures ts[i].start < ts[i].end <= |text|
  {
    assert Placed(text, 0, ts[i]);
  }

  ghost predicate MarkersAfter(ms: seq<Marker>, ms': seq<Marker>, k: nat, w: string) {
    k < |ms| == |ms'|
    && forall j :: 0 <= j < |ms| ==> MarkerAfter(ms[j], ms'[j], j, k, |w| - (ms[k].valueEnd - ms[k].valueStart), w)
  }

  /** Replacing one value in a text without problems leaves a text without problems, with the
      same markers around it. */
  lemma {:induction false} PutOne(text: string, k: nat, w: string)
    requires Sound(text) && k < |FindMarkers(text).markers| && Clean(w)
    requires NoBreak(FindMarkers(text).markers[k].value)
    ensures var ms := FindMarkers(text).markers;
      Sound(Put(text, ms[k], w)) && MarkersAfter(ms, FindMarkers(Put(text, ms[k], w)).markers, k, w)
  {
    hide Items, FindMarkers, PairUp, Tokens, Laid, Edges, Put, Around, Replaced, MarkerAfter, NoBreak, Sound;
    SoundAnatomy(text);
    var ms := FindMarkers(text).markers;
    var m, items, ts := ms[k], Items(text, 0, 1, false), TokensOf(text);
    CutAtMarker(text, items, ts, ms, k, w);
    var text' := Put(text, m, w);
    var d := |w| - |m.value|;
    ReplaceItems(text[..m.valueStart], m.value, text[m.valueEnd..], 0, 1, false, 2 * k, w);
    var items', ts' := Items(text', 0, 1, false), TokensOf(text');
    ReplacedTokens(items, items', k, d);
    PairedMoved(ts, ts', k, d);
    assert |m.value| == m.valueEnd - m.valueStart;
    hide Clean, AllTok, Anatomy;
    forall j | 0 <= j < |ms| ensures MarkerAfter(ms[j], MarkerOf(text', ts'[2 * j], ts'[2 * j + 1]), j, k, d, w) {
      OneMarkerAfter(text, text', ts, ts', k, w, j);
    }
    OneLineAfter(text, text', ts, ts', ms, k, d, w);
    AnatomySound(text', ts');
  }

  lemma {:induction false} OneLineAfter(text: string, text': string, ts: seq<Token>, ts': seq<Token>, ms: seq<Marker>,
      k: nat, d: int, w: string)
    requires Paired(ts) && Paired(ts') && |ts| == |ts'| && OneLine(text, ts) && MarkersFrom(text, ts, ms) && Clean(w)
    requires forall j :: 0 <= j < |ms| ==> MarkerAfter(ms[j], MarkerOf(text', ts'[2 * j], ts'[2 * j + 1]), j, k, d, w)
    ensures OneLine(text', ts')
  {
    hide MarkerOf;
    forall j | 0 <= j < |ts'| / 2 ensures '\n' !in MarkerOf(text', ts'[2 * j], ts'[2 * j + 1]).value {
      assert '\n' !in ms[j].value;
    }
  }

  // ----- every replacement -----

  /** The text with the values of the markers from `k` on replaced, last one first. */
  ghost function PutFrom(text: string, ms: seq<Marker>, fills: seq<string>, k: nat): string
    requires |fills| == |ms| && k <= |ms|
    decreases |ms| - k
  {
    if k == |ms| then text else Put(PutFrom(text, ms, fills, k + 1), ms[k], fills[k])
  }

  /** Two markers with the same opening and closing comment. */
  ghost predicate SameComments(m: Marker, m': Marker) {
    m'.name == m.name && m'.floor == m.floor &&
    m'.valueStart - m'.start == m.valueStart - m.start && m'.end - m'.valueEnd == m.end - m.valueEnd
  }

  /** The markers after replacing from `k` on: untouched before, refilled from there. */
  ghost predicate Refilled(ms: seq<Marker>, ms': seq<Marker>, fills: seq<string>, k: nat)
    requires |fills| == |ms| && k <= |ms|
  {
    |ms'| == |ms|
    && (forall j :: 0 <= j < k ==> ms'[j] == ms[j])
    && forall j :: k <= j < |ms| ==>
         SameComments(ms[j], ms'[j]) && ms'[j].line == ms[j].line && ms'[j].value == fills[j]
  }

  lemma {:induction false} RefilledStep(ms: seq<Marker>, ms1: seq<Marker>, ms2: seq<Marker>, fills: seq<string>, k: nat)
    requires |fills| == |ms| && k < |ms| && Refilled(ms, ms1, fills, k + 1) && MarkersAfter(ms1, ms2, k, fills[k])
    ensures Refilled(ms, ms2, fills, k)
  {
    var d := |fills[k]| - (ms1[k].valueEnd - ms1[k].valueStart);
    forall j | 0 <= j < |ms|
      ensures j < k ==> ms2[j] == ms[j]
      ensures j >= k ==> SameComments(ms[j], ms2[j]) && ms2[j].line == ms[j].line && ms2[j].value == fills[j]
    {
      assert MarkerAfter(ms1[j], ms2[j], j, k, d, fills[k]);
    }
  }

  lemma {:induction false} PutAll(text: string, ms: seq<Marker>, fills: seq<string>, k: nat)
    requires Sound(text) && ms == FindMarkers(text).markers && ValuesOnOneLine(ms)
    requires |fills| == |ms| && k <= |ms| && forall j :: 0 <= j < |ms| ==> Clean(fills[j])
    ensures var t := PutFrom(text, ms, fills, k);
      Sound(t) && Refilled(ms, FindMarkers(t).markers, fills, k) && SameOutside(text, ms, t, FindMarkers(t).markers)
    decreases |ms| - k
  {
    hide Sound, FindMarkers, Clean, NoBreak, Put, MarkersAfter, SameOutside;
    if k == |ms| {
      SameOutsideRefl(text, ms);
    } else {
      PutAll(text, ms, fills, k + 1);
      var t1 := PutFrom(text, ms, fills, k + 1);
      var ms1 := FindMarkers(t1).markers;
      PutOne(t1, k, fills[k]);
      var t2 := Put(t1, ms[k], fills[k]);
      var ms2 := FindMarkers(t2).markers;
      RefilledStep(ms, ms1, ms2, fills, k);
      PutOutside(t1, k, fills[k]);
      SameOutsideTrans(text, ms, t1, ms1, t2, ms2);
    }
  }

  /** The text outside the values, and outside the whole markers, is the same. */
  ghost predicate SameOutside(text: string, ms: seq<Marker>, text': string, ms': seq<Marker>) {
    && SamePieces(text, ValueSpans(ms), text', ValueSpans(ms'))
    && SamePieces(text, WholeSpans(ms), text', WholeSpans(ms'))
  }

  lemma {:induction false} SameOutsideRefl(text: string, ms: seq<Marker>)
    ensures SameOutside(text, ms, text, ms)
  {
  }

  lemma {:induction false} SamePiecesTrans(t: string, s: seq<Span>, t1: string, s1: seq<Span>, t2: string,
      s2: seq<Span>)
    requires SamePieces(t, s, t1, s1) && SamePieces(t1, s1, t2, s2)
    ensures SamePieces(t, s, t2, s2)
  {
    hide Piece;
  }

  lemma {:induction false} SameOutsideTrans(t: string, m: seq<Marker>, t1: string, m1: seq<Marker>, t2: string,
      m2: seq<Marker>)
    requires SameOutside(t, m, t1, m1) && SameOutside(t1, m1, t2, m2)
    ensures SameOutside(t, m, t2, m2)
  {
    hide SamePieces;
    SamePiecesTrans(t, ValueSpans(m), t1, ValueSpans(m1), t2, ValueSpans(m2));
    SamePiecesTrans(t, WholeSpans(m), t1, WholeSpans(m1), t2, WholeSpans(m2));
  }

  /** Spans moved by a replacement at span `k`, whose inside alone changes. */
  ghost predicate SpansMoved(s: seq<Span>, s': seq<Span>, k: nat, d: int) {
    |s'| == |s| && k < |s|
    && forall j :: 0 <= j < |s| ==>
         s'[j].from == (if j <= k then s[j].from else s[j].from + d) &&
           s'[j].to == (if j < k then s[j].to else s[j].to + d)
  }

  lemma {:induction false} PiecesMoved(text: string, text': string, s: seq<Span>, s': seq<Span>, k: nat, from: nat,
      to: nat, w: string)
    requires Swapped(text, text', from, to, w) && Within(text, s) && SpansMoved(s, s', k, |w| - (to - from))
    requires s[k].from <= from && to <= s[k].to
    ensures SamePieces(text, s, text', s')
  {
    forall j | 0 <= j <= |s| ensures Piece(text, s, j) == Piece(text', s', j) {
      var a, b := if j == 0 then 0 else s[j - 1].to, if j == |s| then |text| else s[j].from;
      var a', b' := if j == 0 then 0 else s'[j - 1].to, if j == |s'| then |text'| else s'[j].from;
      if j <= k {
        assert b <= from;
        SliceBefore(text, text', from, to, w, a, b);
      } else {
        SliceAfter(text, text', from, to, w, a, b, a', b');
      }
    }
  }

  lemma {:induction false} MarkersWithin(text: string)
    requires Sound(text)
    ensures var ms := FindMarkers(text).markers;
      && Within(text, ValueSpans(ms)) && Within(text, WholeSpans(ms))
      && forall j :: 0 <= j < |ms| ==>
           ms[j].start < ms[j].valueStart <= ms[j].valueEnd < ms[j].end <= |text|
           && ms[j].value == text[ms[j].valueStart..ms[j].valueEnd]
  {
    hide Items, FindMarkers, PairUp, Tokens, Sound, Placed, OneLine;
    SoundAnatomy(text);
    var ms, ts := FindMarkers(text).markers, TokensOf(text);
    hide TokensOf;
    forall j | 0 <= j < |ms|
      ensures ms[j].start < ms[j].valueStart <= ms[j].valueEnd < ms[j].end <= |text|
      ensures ms[j].value == text[ms[j].valueStart..ms[j].valueEnd]
    {
      StartBeforeEnd(text, ts, 2 * j);
      StartBeforeEnd(text, ts, 2 * j + 1);
      assert ts[2 * j].end <= ts[2 * j + 1].start;
    }
    forall i, j | 0 <= i < j < |ms| ensures ms[i].end <= ms[j].start {
      assert ts[2 * i + 1].end <= ts[2 * j].start;
    }
  }

  lemma {:induction false} PutSwaps(text: string, m: Marker, w: string)
    requires m.valueStart <= m.valueEnd <= |text|
    ensures Swapped(text, Put(text, m, w), m.valueStart, m.valueEnd, w)
  {
  }

  lemma {:induction false} PutOutside(text: string, k: nat, w: string)
    requires Sound(text) && k < |FindMarkers(text).markers| && Clean(w)
    requires NoBreak(FindMarkers(text).markers[k].value)
    ensures var ms := FindMarkers(text).markers; var t := Put(text, ms[k], w);
      SameOutside(text, ms, t, FindMarkers(t).markers)
  {
    hide FindMarkers, Sound, Clean, NoBreak, Put, Swapped, Within, SamePieces;
    var ms := FindMarkers(text).markers;
    var m := ms[k];
    var t := Put(text, m, w);
    var ms' := FindMarkers(t).markers;
    MarkersWithin(text);
    PutOne(text, k, w);
    PutSwaps(text, m, w);
    var d := |w| - (m.valueEnd - m.valueStart);
    SpansAfter(ms, ms', k, w);
    PiecesMoved(text, t, ValueSpans(ms), ValueSpans(ms'), k, m.valueStart, m.valueEnd, w);
    PiecesMoved(text, t, WholeSpans(ms), WholeSpans(ms'), k, m.valueStart, m.valueEnd, w);
  }

  lemma {:induction false} SpansAfter(ms: seq<Marker>, ms': seq<Marker>, k: nat, w: string)
    requires MarkersAfter(ms, ms', k, w)
    ensures var d := |w| - (ms[k].valueEnd - ms[k].valueStart);
      SpansMoved(ValueSpans(ms), ValueSpans(ms'), k, d) && SpansMoved(WholeSpans(ms), WholeSpans(ms'), k, d)
  {
    forall j | 0 <= j < |ms| ensures MarkerAfter(ms[j], ms'[j], j, k, |w| - (ms[k].valueEnd - ms[k].valueStart), w) {
    }
  }

  // ----- the cursor-based rewrite is the same -----

  lemma {:induction false} WeaveIsPut(text: string, ms: seq<Marker>, fills: seq<string>, k: nat, last: nat)
    requires |fills| == |ms| && k <= |ms| && last <= |text| && Within(text, ValueSpans(ms))
    requires k < |ms| ==> last <= ms[k].valueStart
    ensures PutFrom(text, ms, fills, k) == text[..last] + Weave(text, last, ValueSpans(ms)[k..], fills[k..])
    decreases |ms| - k
  {
    hide Put;
    if k < |ms| {
      hide Weave;
      assert ValueSpans(ms)[k] == Span(ms[k].valueStart, ms[k].valueEnd);
      if k + 1 < |ms| { assert ValueSpans(ms)[k].to <= ValueSpans(ms)[k + 1].from; }
      WeaveIsPut(text, ms, fills, k + 1, ms[k].valueEnd);
      var tail := Weave(text, ms[k].valueEnd, ValueSpans(ms)[k + 1..], fills[k + 1..]);
      PutSplit(text, ms[k], fills[k], tail);
      WeaveStep(text, last, ValueSpans(ms), fills, k);
      JoinPrefix(text, last, ms[k].valueStart, fills[k] + tail);
    }
  }

  lemma {:induction false} JoinPrefix(text: string, a: nat, b: nat, rest: string)
    requires a <= b <= |text|
    ensures text[..a] + (text[a..b] + rest) == text[..b] + rest
  {
  }

  lemma {:induction false} WeaveStep(text: string, last: nat, spans: seq<Span>, fills: seq<string>, k: nat)
    requires |fills| == |spans| && k < |spans|
    ensures Weave(text, last, spans[k..], fills[k..])
         == Slice(text, last, spans[k].from) + fills[k] + Weave(text, spans[k].to, spans[k + 1..], fills[k + 1..])
  {
    assert spans[k..][1..] == spans[k + 1..] && fills[k..][1..] == fills[k + 1..];
  }

  lemma {:induction false} PutSplit(text: string, m: Marker, w: string, tail: string)
    requires m.valueStart <= m.valueEnd <= |text|
    ensures Put(text[..m.valueEnd] + tail, m, w) == text[..m.valueStart] + w + tail
  {
    var t := text[..m.valueEnd] + tail;
    assert t[..m.valueStart] == text[..m.valueStart];
    assert t[m.valueEnd..] == tail;
  }

  /** Equal pieces woven with equal fillings give equal texts. */
  lemma {:induction false} WeaveSame(text: string, s: seq<Span>, text': string, s': seq<Span>, fills: seq<string>,
      k: nat)
    requires SamePieces(text, s, text', s') && |fills| == |s| && k <= |s|
    ensures Weave(text, if k == 0 then 0 else s[k - 1].to, s[k..], fills[k..])
         == Weave(text', if k == 0 then 0 else s'[k - 1].to, s'[k..], fills[k..])
    decreases |s| - k
  {
    assert Piece(text, s, k) == Piece(text', s', k);
    if k < |s| {
      WeaveSame(text, s, text', s', fills, k + 1);
      WeaveStep(text, if k == 0 then 0 else s[k - 1].to, s, fills, k);
      WeaveStep(text', if k == 0 then 0 else s'[k - 1].to, s', fills, k);
    }
  }

  /** Weaving every marker's own value back in changes nothing. */
  lemma {:induction false} WeaveOwn(text: string, ms: seq<Marker>, k: nat, last: nat)
    requires k <= |ms| && last <= |text| && Within(text, ValueSpans(ms))
    requires forall j :: 0 <= j < |ms| ==>
      ms[j].valueStart <= ms[j].valueEnd <= |text| && ms[j].value == text[ms[j].valueStart..ms[j].valueEnd]
    requires k < |ms| ==> last <= ms[k].valueStart
    ensures Weave(text, last, ValueSpans(ms)[k..], Values(ms)[k..]) == text[last..]
    decreases |ms| - k
  {
    var spans, fills := ValueSpans(ms), Values(ms);
    if k < |ms| {
      if k + 1 < |ms| { assert spans[k].to <= spans[k + 1].from; }
      WeaveOwn(text, ms, k + 1, ms[k].valueEnd);
      WeaveStep(text, last, spans, fills, k);
      assert text[last..ms[k].valueStart] + ms[k].value + text[ms[k].valueEnd..] == text[last..];
    }
  }

  // ----- main results -----

  /** The rewritten text scans to the same markers, in order, holding exactly the fillings,
      without problems; everything outside the values is as it was. */
  lemma {:induction false} RewriteRescans(text: string, fills: seq<string>)
    requires Sound(text) && ValuesOnOneLine(FindMarkers(text).markers)
    requires |fills| == |FindMarkers(text).markers| && forall j :: 0 <= j < |fills| ==> Clean(fills[j])
    ensures var ms := FindMarkers(text).markers; var t := Weave(text, 0, ValueSpans(ms), fills);
      && Sound(t) && Refilled(ms, FindMarkers(t).markers, fills, 0) && Values(FindMarkers(t).markers) == fills
      && SameOutside(text, ms, t, FindMarkers(t).markers)
  {
    hide Sound, FindMarkers, Clean, NoBreak, SameOutside, PutFrom, Weave;
    var ms := FindMarkers(text).markers;
    MarkersWithin(text);
    PutAll(text, ms, fills, 0);
    WeaveIsPut(text, ms, fills, 0, 0);
    assert ValueSpans(ms)[0..] == ValueSpans(ms) && fills[0..] == fills && text[..0] == "";
    var t := PutFrom(text, ms, fills, 0);
    assert Weave(text, 0, ValueSpans(ms), fills) == t;
  }

  /** The same figures, in order, holding the fillings; the lines they stand on may differ. */
  ghost predicate Holding(ms: seq<Marker>, ms': seq<Marker>, fills: seq<string>)
    requires |fills| == |ms|
  {
    |ms'| == |ms|
    && forall j :: 0 <= j < |ms| ==> SameComments(ms[j], ms'[j]) && ms'[j].value == fills[j]
  }

  /** Scanning the text rewritten with the fillings finds the same figures in the same places,
      holding the fillings, without problems. */
  ghost predicate Rescans(text: string, fills: seq<string>)
    requires |fills| == |FindMarkers(text).markers|
  {
    var ms := FindMarkers(text).markers; var t := Weave(text, 0, ValueSpans(ms), fills);
    Sound(t) && Holding(ms, FindMarkers(t).markers, fills) && SameOutside(text, ms, t, FindMarkers(t).markers)
  }

  function Empties(n: nat): (fills: seq<string>)
    ensures |fills| == n
  {
    seq(n, i => "")
  }

  /** The values can be taken out: with all of them empty, the same figures are found in the same
      places, without problems. */
  ghost predicate EmptiesWell(text: string) {
    Rescans(text, Empties(|FindMarkers(text).markers|))
  }

  lemma {:induction false} EmptyFills(n: nat)
    ensures var e := Empties(n); forall j :: 0 <= j < n ==> Clean(e[j])
  {
  }

  lemma {:induction false} HoldingValues(ms: seq<Marker>, ms': seq<Marker>, fills: seq<string>)
    requires |fills| == |ms| && Holding(ms, ms', fills)
    ensures Values(ms') == fills
  {
  }

  lemma {:induction false} ValuesHeld(ms: seq<Marker>, ms': seq<Marker>, fills: seq<string>)
    requires |fills| == |ms| && Holding(ms, ms', fills) && forall j :: 0 <= j < |fills| ==> Clean(fills[j])
    ensures ValuesOnOneLine(ms')
  {
    forall i | 0 <= i < |ms'| ensures NoBreak(ms'[i].value) {
      assert ms'[i].value == fills[i];
    }
  }

  lemma {:induction false} HoldingTrans(ms: seq<Marker>, ms1: seq<Marker>, ms2: seq<Marker>, f: seq<string>,
      g: seq<string>)
    requires |f| == |g| == |ms| && Holding(ms, ms1, f) && Refilled(ms1, ms2, g, 0)
    ensures Holding(ms, ms2, g)
  {
  }

  /** Whether a rewritten text rescans does not depend on what is filled in. */
  lemma {:induction false} RescansAny(text: string, f: seq<string>, g: seq<string>)
    requires |f| == |g| == |FindMarkers(text).markers| && Rescans(text, f)
    requires forall j :: 0 <= j < |f| ==> Clean(f[j]) && Clean(g[j])
    ensures Rescans(text, g)
  {
    hide Sound, FindMarkers, Clean, NoBreak, SameOutside, Weave, Holding, Refilled, ValuesOnOneLine;
    var ms := FindMarkers(text).markers;
    var t := Weave(text, 0, ValueSpans(ms), f);
    var mt := FindMarkers(t).markers;
    ValuesHeld(ms, mt, f);
    HoldingSize(ms, mt, f);
    RewriteRescans(t, g);
    SameWeave(text, ms, t, mt, g);
    var t2 := Weave(t, 0, ValueSpans(mt), g);
    HoldingTrans(ms, mt, FindMarkers(t2).markers, f, g);
    SameOutsideTrans(text, ms, t, mt, t2, FindMarkers(t2).markers);
  }

  lemma {:induction false} HoldingSize(ms: seq<Marker>, ms': seq<Marker>, fills: seq<string>)
    requires |fills| == |ms| && Holding(ms, ms', fills)
    ensures |ms'| == |ms|
  {
  }

  lemma {:induction false} SameWeave(text: string, ms: seq<Marker>, text': string, ms': seq<Marker>, fills: seq<string>)
    requires |fills| == |ms| && SameOutside(text, ms, text', ms')
    ensures |ms'| == |ms| && Weave(text, 0, ValueSpans(ms), fills) == Weave(text', 0, ValueSpans(ms'), fills)
  {
    hide Weave, SamePieces;
    assert SamePieces(text, ValueSpans(ms), text', ValueSpans(ms'));
    SamePiecesSize(text, ValueSpans(ms), text', ValueSpans(ms'));
    WeaveSame(text, ValueSpans(ms), text', ValueSpans(ms'), fills, 0);
    assert ValueSpans(ms)[0..] == ValueSpans(ms) && ValueSpans(ms')[0..] == ValueSpans(ms') && fills[0..] == fills;
  }

  lemma {:induction false} SamePiecesSize(text: string, s: seq<Span>, text': string, s': seq<Span>)
    requires SamePieces(text, s, text', s')
    ensures |s'| == |s|
  {
  }

  /** Values that span no line boundary can always be taken out. */
  lemma {:induction false} OneLineEmptiesWell(text: string)
    requires Sound(text) && ValuesOnOneLine(FindMarkers(text).markers)
    ensures EmptiesWell(text)
  {
    hide Sound, FindMarkers, SameOutside, Weave, ValuesOnOneLine;
    var ms := FindMarkers(text).markers;
    RewriteRescans(text, Empties(|ms|));
  }

  /** Rewriting with the values already there is the identity. */
  lemma {:induction false} RewriteIdentity(text: string)
    requires Sound(text)
    ensures var ms := FindMarkers(text).markers; Weave(text, 0, ValueSpans(ms), Values(ms)) == text
  {
    hide Sound, FindMarkers, Weave, Within;
    var ms := FindMarkers(text).markers;
    MarkersWithin(text);
    WeaveOwn(text, ms, 0, 0);
    assert ValueSpans(ms)[0..] == ValueSpans(ms) && Values(ms)[0..] == Values(ms) && text[0..] == text;
  }
}
