/** Taking the values out of a text, stated on the text itself: positions, inline code, and the exact
    condition under which the emptied text holds the same comments. */
module FigureTaken {
  import opened FigureMarkers
  import opened FigureScan
  import opened FigureRewrite
  import opened FigureCode
  import FigurePasses

  // ----- positions -----

  /** How many characters of the values lie before position `p`. */
  function ValueBefore(spans: seq<Span>, p: nat): nat {
    if spans == [] || p <= spans[0].from then 0
    else (if p < spans[0].to then p - spans[0].from
          else if spans[0].from <= spans[0].to then spans[0].to - spans[0].from else 0) + ValueBefore(spans[1..], p)
  }

  /** Where position `p` is once the values are taken out. */
  function BarePosition(spans: seq<Span>, p: nat): nat {
    if ValueBefore(spans, p) <= p then p - ValueBefore(spans, p) else 0
  }

  predicate Outside(spans: seq<Span>, p: nat) {
    forall i :: 0 <= i < |spans| ==> !(spans[i].from <= p < spans[i].to)
  }

  /** The text with every value taken out. */
  function Emptied(text: string): string {
    var ms := FindMarkers(text).markers;
    Weave(text, 0, ValueSpans(ms), Empties(|ms|))
  }

  /** Every marker comment outside the values is in inline code, judged by the backticks of its line,
      either both before and after the values are taken out or neither time. */
  ghost predicate SameCode(text: string) {
    var spans := ValueSpans(FindMarkers(text).markers);
    forall p: nat :: p < |text| && Outside(spans, p) && CommentAt(text, p) ==>
      (CodeAt(text, p) <==> CodeAt(Emptied(text), BarePosition(spans, p)))
  }

  /** Position by position this is the inline code of the line's scan. */
  lemma {:induction false} CodeAtInLine(t: string, s: nat, p: nat)
    requires s < |t| && (s > 0 ==> EndsLine(t[s - 1..])) && p < |RestLine(t[s..])|
    ensures s + p < |t| && (CodeAt(t, s + p) <==> FigurePasses.InCode(RestLine(t[s..]), p))
  {
    hide LineLen, EndsLine, OddTicks;
    OddInLine(t, s, p);
    RestInLine(t[s..], p);
    assert t[s..][p..] == t[s + p..];
  }

  lemma {:induction false} RestInLine(t: string, p: nat)
    requires p < |RestLine(t)|
    ensures RestLine(t[p..]) == RestLine(t)[p..] && (p > 0 ==> !EndsLine(t[p - 1..]))
    decreases p
  {
    hide EndsLine;
    if p == 0 {
      assert t[0..] == t && RestLine(t)[0..] == RestLine(t);
    } else {
      LineLenStep(t);
      RestStep(t);
      hide RestLine;
      assert RestLine(t)[1..][p - 1..] == RestLine(t)[p..] && t[1..][p - 1..] == t[p..];
      RestInLine(t[1..], p - 1);
      assert p > 1 ==> t[1..][p - 2..] == t[p - 1..];
      assert t[0..] == t;
    }
  }

  lemma {:induction false} OddInLine(t: string, s: nat, p: nat)
    requires s < |t| && (s > 0 ==> EndsLine(t[s - 1..])) && p < |RestLine(t[s..])|
    ensures s + p < |t| && OddBefore(t, s + p) == OddTicks(RestLine(t[s..])[..p])
    decreases p
  {
    hide EndsLine, LineLen;
    var line := RestLine(t[s..]);
    if p == 0 {
      assert line[..0] == "";
    } else {
      OddInLine(t, s, p - 1);
      RestInLine(t[s..], p);
      assert t[s..][p - 1..] == t[s + p - 1..];
      OddStep(t, s + p - 1);
      assert line[..p] == line[..p - 1] + [line[p - 1]];
      OddConcat(line[..p - 1], [line[p - 1]]);
      assert [line[p - 1]][1..] == "" && line[p - 1] == t[s + p - 1];
    }
  }

  // ----- the text as pieces and values -----

  /** Spans in order from position `b` on, inside the text. */
  ghost predicate InOrder(text: string, spans: seq<Span>, b: nat) {
    b <= |text| && Within(text, spans) && (spans != [] ==> b <= spans[0].from)
  }

  ghost function Front(text: string, spans: seq<Span>, b: nat): string
    requires InOrder(text, spans, b)
  {
    if spans == [] then text[b..] else text[b..spans[0].from]
  }

  lemma {:induction false} InOrderTail(text: string, spans: seq<Span>, b: nat)
    requires InOrder(text, spans, b) && spans != []
    ensures InOrder(text, spans[1..], spans[0].to)
    ensures forall i :: 0 < i < |spans| ==> spans[0].to <= spans[i].from
  {
    assert forall i :: 0 <= i < |spans| - 1 ==> spans[1..][i] == spans[i + 1];
  }

  ghost function Chunks(text: string, spans: seq<Span>, b: nat): seq<Chunk>
    requires InOrder(text, spans, b)
    decreases |spans|
  {
    if spans == [] then []
    else
      InOrderTail(text, spans, b);
      [Chunk(text[spans[0].from..spans[0].to], Front(text, spans[1..], spans[0].to))] +
        Chunks(text, spans[1..], spans[0].to)
  }

  lemma {:induction false} ChunksStep(text: string, spans: seq<Span>, b: nat)
    requires InOrder(text, spans, b) && spans != []
    ensures InOrder(text, spans[1..], spans[0].to)
    ensures var cs := Chunks(text, spans, b);
      cs != [] && cs[0].value == text[spans[0].from..spans[0].to] &&
        cs[0].post == Front(text, spans[1..], spans[0].to) &&
      cs[1..] == Chunks(text, spans[1..], spans[0].to)
  {
    InOrderTail(text, spans, b);
  }

  /** The pieces and values put together are the text; the pieces alone are the emptied text. */
  lemma {:induction false} ChunksText(text: string, spans: seq<Span>, b: nat)
    requires InOrder(text, spans, b)
    ensures Full(Front(text, spans, b), Chunks(text, spans, b)) == text[b..]
    ensures Bare(Front(text, spans, b), Chunks(text, spans, b)) == Weave(text, b, spans, Empties(|spans|))
    decreases |spans|
  {
    hide Within, InOrder, Chunks, Empties;
    InOrderBound(text, spans, b);
    if spans == [] {
      NoChunks(text, b);
      assert text[b..|text|] == text[b..];
    } else {
      SpanBounds(text, spans, b);
      ChunksStep(text, spans, b);
      ChunksText(text, spans[1..], spans[0].to);
      var s := spans[0];
      assert text[b..] == text[b..s.from] + (text[s.from..s.to] + text[s.to..]);
      EmptiesStep(|spans|);
      assert text[b..s.from] + "" == text[b..s.from];
    }
  }

  lemma {:induction false} EmptiesStep(n: nat)
    requires n > 0
    ensures |Empties(n)| == n && Empties(n)[1..] == Empties(n - 1) && Empties(n)[0] == ""
  {
  }

  lemma {:induction false} InOrderBound(text: string, spans: seq<Span>, b: nat)
    requires InOrder(text, spans, b)
    ensures b <= |text|
  {
  }

  lemma {:induction false} SpanBounds(text: string, spans: seq<Span>, b: nat)
    requires InOrder(text, spans, b) && spans != []
    ensures b <= spans[0].from <= spans[0].to <= |text|
  {
  }

  /** Positions agree with those of the pieces. */
  lemma {:induction false} TakenIs(text: string, spans: seq<Span>, b: nat, x: nat)
    requires InOrder(text, spans, b) && b + x <= |text|
    ensures ValueBefore(spans, b + x) <= x
    ensures Taken(Front(text, spans, b), Chunks(text, spans, b), x) == x - ValueBefore(spans, b + x)
    decreases |spans|
  {
    hide Within, InOrder, Chunks;
    if spans == [] {
      NoChunks(text, b);
    } else {
      ChunksStep(text, spans, b);
      SpanBounds(text, spans, b);
      var s := spans[0];
      if b + x >= s.to {
        TakenIs(text, spans[1..], s.to, b + x - s.to);
        if b + x == s.from {
          NoneBefore(text, spans[1..], s.to, s.to);
        }
      } else if b + x > s.from {
        NoneBefore(text, spans[1..], s.to, b + x);
      }
    }
  }

  lemma {:induction false} NoChunks(text: string, b: nat)
    requires InOrder(text, [], b)
    ensures Chunks(text, [], b) == []
  {
  }

  lemma {:induction false} NoneBefore(text: string, spans: seq<Span>, b: nat, p: nat)
    requires InOrder(text, spans, b) && p <= b
    ensures ValueBefore(spans, p) == 0
  {
  }

  /** Is offset `x` in one of the pieces? */
  predicate InPiece(a: string, cs: seq<Chunk>, x: nat)
    decreases |cs|
  {
    x < |a| || (cs != [] && x >= |a| + |cs[0].value| && InPiece(cs[0].post, cs[1..], x - |a| - |cs[0].value|))
  }

  lemma {:induction false} InPieceIs(text: string, spans: seq<Span>, b: nat, x: nat)
    requires InOrder(text, spans, b) && b + x < |text|
    ensures InPiece(Front(text, spans, b), Chunks(text, spans, b), x) <==> Outside(spans, b + x)
    decreases |spans|
  {
    hide Within, InOrder, Chunks;
    if spans == [] {
      NoChunks(text, b);
    } else {
      ChunksStep(text, spans, b);
      SpanBounds(text, spans, b);
      InOrderTail(text, spans, b);
      OutsideStep(spans, b + x);
      if b + x >= spans[0].to {
        InPieceIs(text, spans[1..], spans[0].to, b + x - spans[0].to);
      } else {
        OutsideEarly(spans, b + x);
      }
    }
  }

  lemma {:induction false} OutsideStep(spans: seq<Span>, p: nat)
    requires spans != []
    ensures Outside(spans, p) <==> !(spans[0].from <= p < spans[0].to) && Outside(spans[1..], p)
  {
    assert forall i :: 0 < i < |spans| ==> spans[i] == spans[1..][i - 1];
    assert forall i :: 0 <= i < |spans| - 1 ==> spans[1..][i] == spans[i + 1];
  }

  lemma {:induction false} OutsideEarly(spans: seq<Span>, p: nat)
    requires spans != [] && p < spans[0].to && forall i :: 0 < i < |spans| ==> spans[0].to <= spans[i].from
    ensures Outside(spans, p) <==> !(spans[0].from <= p < spans[0].to)
  {
  }

  // ----- inline code by position -----

  lemma {:induction false} OddStep(t: string, b: nat)
    requires b < |t|
    ensures OddBefore(t, b + 1) == Next(OddBefore(t, b), t[b..])
  {
    hide Next;
  }

  lemma {:induction false} OddAcross(t: string, b: nat, v: string, r: string)
    requires b <= |t| && t[b..] == v + r
    ensures b + |v| <= |t| && OddBefore(t, b + |v|) == OddAfter(v, r, OddBefore(t, b))
    decreases |v|
  {
    hide OddBefore, Next;
    if v != "" {
      OddStep(t, b);
      assert t[b + 1..] == t[b..][1..] == v[1..] + r;
      OddAcross(t, b + 1, v[1..], r);
    }
  }

  /** What agreement at one comment means on the two texts. */
  ghost predicate AgreeAt(t: string, e: string, b: nat, b': nat, a: string, cs: seq<Chunk>, x: nat) {
    b + x < |t| && InPiece(a, cs, x) && CommentAt(t, b + x) ==>
      (CodeAt(t, b + x) <==> CodeAt(e, b' + Taken(a, cs, x)))
  }

  ghost predicate AgreeAll(t: string, e: string, b: nat, b': nat, a: string, cs: seq<Chunk>) {
    forall x: nat :: AgreeAt(t, e, b, b', a, cs, x)
  }

  lemma {:induction false} AgreeFirst(t: string, e: string, b: nat, b': nat, a: string, cs: seq<Chunk>)
    requires a != "" && b <= |t| && b' <= |e| && t[b..] == Full(a, cs) && e[b'..] == Bare(a, cs)
    ensures b < |t| && b' < |e|
    ensures AgreeAt(t, e, b, b', a, cs, 0) <==> AgreeHere(a, cs, OddBefore(t, b), OddBefore(e, b'))
  {
    hide Full, Bare, RestLine, KeywordLen, OddBefore;
    FullStep(a, cs);
    TakenFront(a, cs, 0);
  }

  lemma {:induction false} AgreeTail(t: string, e: string, b: nat, b': nat, a: string, cs: seq<Chunk>)
    requires a != ""
    ensures AgreeAll(t, e, b, b', a, cs) <==>
      AgreeAt(t, e, b, b', a, cs, 0) && AgreeAll(t, e, b + 1, b' + 1, a[1..], cs)
  {
    hide AgreeAt;
    var c: nat, c': nat, rest := b + 1, b' + 1, a[1..];
    forall x: nat | x > 0
      ensures AgreeAt(t, e, b, b', a, cs, x) <==> AgreeAt(t, e, c, c', rest, cs, x - 1)
    {
      AgreeShift(t, e, b, b', a, cs, x - 1);
    }
    if AgreeAll(t, e, b, b', a, cs) {
      forall x: nat ensures AgreeAt(t, e, c, c', rest, cs, x) {
        assert AgreeAt(t, e, b, b', a, cs, x + 1);
      }
    }
    if AgreeAt(t, e, b, b', a, cs, 0) && AgreeAll(t, e, c, c', rest, cs) {
      forall x: nat ensures AgreeAt(t, e, b, b', a, cs, x) {
        if x > 0 {
          var y: nat := x - 1;
          assert AgreeAt(t, e, c, c', rest, cs, y);
        }
      }
    }
  }

  lemma {:induction false} AgreeShift(t: string, e: string, b: nat, b': nat, a: string, cs: seq<Chunk>, x: nat)
    requires a != ""
    ensures AgreeAt(t, e, b, b', a, cs, x + 1) <==> AgreeAt(t, e, b + 1, b' + 1, a[1..], cs, x)
  {
    hide CommentAt, CodeAt, Taken;
    TakenStep(a, cs, x + 1);
  }

  lemma {:induction false} AgreeOver(t: string, e: string, b: nat, b': nat, cs: seq<Chunk>)
    requires cs != [] && cs[0].post != ""
    ensures var k := |cs[0].value|;
      AgreeAll(t, e, b, b', "", cs) <==> AgreeAll(t, e, b + k, b', cs[0].post, cs[1..])
  {
    hide AgreeAt;
    var k, post, rest := |cs[0].value|, cs[0].post, cs[1..];
    var c: nat := b + k;
    forall x: nat
      ensures x < k ==> AgreeAt(t, e, b, b', "", cs, x)
      ensures x >= k ==> (AgreeAt(t, e, b, b', "", cs, x) <==> AgreeAt(t, e, c, b', post, rest, x - k))
    {
      AgreeBeyond(t, e, b, b', cs, x);
      if x >= k { AgreeBeyond(t, e, b, b', cs, x - k); }
    }
    if AgreeAll(t, e, b, b', "", cs) {
      forall x: nat ensures AgreeAt(t, e, c, b', post, rest, x) {
        assert AgreeAt(t, e, b, b', "", cs, k + x);
      }
    }
    if AgreeAll(t, e, c, b', post, rest) {
      forall x: nat ensures AgreeAt(t, e, b, b', "", cs, x) {
        if x >= k {
          var y: nat := x - k;
          assert AgreeAt(t, e, c, b', post, rest, y);
        }
      }
    }
  }

  lemma {:induction false} AgreeBeyond(t: string, e: string, b: nat, b': nat, cs: seq<Chunk>, x: nat)
    requires cs != [] && cs[0].post != ""
    ensures var k := |cs[0].value|;
      (x < k ==> AgreeAt(t, e, b, b', "", cs, x)) &&
      (AgreeAt(t, e, b, b', "", cs, k + x) <==> AgreeAt(t, e, b + k, b', cs[0].post, cs[1..], x))
  {
    hide CommentAt, CodeAt, Taken;
    TakenAcross(cs, |cs[0].value| + x);
  }

  lemma {:induction false} AgreeIffAll(t: string, e: string, b: nat, b': nat, a: string, cs: seq<Chunk>)
    requires Joints(cs) && b <= |t| && b' <= |e| && t[b..] == Full(a, cs) && e[b'..] == Bare(a, cs)
    ensures Agree(a, cs, OddBefore(t, b), OddBefore(e, b')) <==> AgreeAll(t, e, b, b', a, cs)
    decreases |cs|, |a|
  {
    hide Full, Bare, OddBefore, Agree, AgreeAll, AgreeAt, AgreeHere, Joints, Next, OddAfter;
    if a == "" && cs == [] {
      AgreeEnd(t, e, b, b');
    } else if a == "" {
      JointsTail(cs);
      FullFront(cs);
      var k := |cs[0].value|;
      OddAcross(t, b, cs[0].value, Full(cs[0].post, cs[1..]));
      AgreeOver(t, e, b, b', cs);
      AgreeValue(cs, OddBefore(t, b), OddBefore(e, b'));
      assert t[b + k..] == t[b..][k..] == Full(cs[0].post, cs[1..]);
      AgreeIffAll(t, e, b + k, b', cs[0].post, cs[1..]);
    } else {
      FullStep(a, cs);
      AgreeFirst(t, e, b, b', a, cs);
      AgreeTail(t, e, b, b', a, cs);
      AgreeStep(a, cs, OddBefore(t, b), OddBefore(e, b'));
      OddStep(t, b);
      OddStep(e, b');
      assert t[b + 1..] == t[b..][1..] && e[b' + 1..] == e[b'..][1..];
      AgreeIffAll(t, e, b + 1, b' + 1, a[1..], cs);
    }
  }

  lemma {:induction false} AgreeEnd(t: string, e: string, b: nat, b': nat)
    ensures AgreeAll(t, e, b, b', "", []) && forall odd, odd' :: Agree("", [], odd, odd')
  {
  }

  // ----- the text of a run without problems -----

  ghost function PieceStart(ms: seq<Marker>, k: nat): nat
    requires k <= |ms|
  {
    if k == 0 then 0 else ms[k - 1].valueEnd
  }

  /** The two tokens of a marker and the characters that face its value. */
  lemma {:induction false} MarkerEdges(text: string, items: seq<Item>, ts: seq<Token>, ms: seq<Marker>, k: nat)
    requires Anatomy(text, items, ts, ms) && k < |ms|
    ensures |items| == 2 * |ms|
    ensures var m, o, c := ms[k], items[2 * k].token, items[2 * k + 1].token;
      m.start == o.start && m.start + 10 <= m.valueStart == o.end && m.valueEnd == c.start &&
      m.end == c.end && m.valueEnd + 10 <= m.end <= |text| && m.valueStart <= m.valueEnd &&
      o.Open? && c.Close? && m.name == o.name && m.floor == o.floor &&
      text[m.valueStart - 1] == '>' && text[m.valueEnd] == '<'
    ensures PieceStart(ms, k) <= ms[k].start && (k > 0 ==> ms[k - 1].end <= ms[k].start)
  {
    hide OneLine;
    assert Placed(text, 0, ts[2 * k]) && Placed(text, 0, ts[2 * k + 1]);
    assert ts[2 * k].end <= ts[2 * k + 1].start;
    if k > 0 {
      assert Placed(text, 0, ts[2 * k - 1]) && ts[2 * k - 1].end <= ts[2 * k].start;
    }
  }

  lemma {:induction false} OrderFrom(text: string, ms: seq<Marker>, k: nat)
    requires Within(text, ValueSpans(ms)) && k <= |ms|
    ensures InOrder(text, ValueSpans(ms)[k..], PieceStart(ms, k))
    ensures k < |ms| ==> ValueSpans(ms)[k..] != []
    ensures k < |ms| ==> ValueSpans(ms)[k..][0] == Span(ms[k].valueStart, ms[k].valueEnd)
    ensures k < |ms| ==> ValueSpans(ms)[k..][1..] == ValueSpans(ms)[k + 1..]
  {
    var s := ValueSpans(ms);
    assert forall i :: 0 <= i < |s| - k ==> s[k..][i] == s[k + i];
    assert k > 0 ==> s[k - 1].to == ms[k - 1].valueEnd;
  }

  ghost function PiecesFrom(text: string, ms: seq<Marker>, k: nat): (string, seq<Chunk>)
    requires Within(text, ValueSpans(ms)) && k <= |ms|
  {
    OrderFrom(text, ms, k);
    (Front(text, ValueSpans(ms)[k..], PieceStart(ms, k)), Chunks(text, ValueSpans(ms)[k..], PieceStart(ms, k)))
  }

  lemma {:induction false} PiecesStep(text: string, ms: seq<Marker>, k: nat)
    requires Within(text, ValueSpans(ms)) && k < |ms|
    requires PieceStart(ms, k) <= ms[k].valueStart <= ms[k].valueEnd <= |text|
    ensures var (a, cs) := PiecesFrom(text, ms, k); var (post, rest) := PiecesFrom(text, ms, k + 1);
      a == text[PieceStart(ms, k)..ms[k].valueStart] && cs != [] && cs[0].post == post && cs[1..] == rest &&
      cs[0].value == text[ms[k].valueStart..ms[k].valueEnd]
  {
    hide Within, InOrder, Chunks;
    OrderFrom(text, ms, k);
    OrderFrom(text, ms, k + 1);
    ChunksStep(text, ValueSpans(ms)[k..], PieceStart(ms, k));
  }

  lemma {:induction false} PiecesEnd(text: string, ms: seq<Marker>)
    requires Within(text, ValueSpans(ms))
    ensures PiecesFrom(text, ms, |ms|).1 == []
  {
    OrderFrom(text, ms, |ms|);
  }

  lemma {:induction false} SomeTok(items: seq<Item>, k: nat)
    requires AllTok(items) && k <= |items|
    ensures AllTok(items[k..])
  {
  }

  /** The values of a text without problems stand between its tokens. */
  lemma {:induction false} BetweenFrom(text: string, items: seq<Item>, ts: seq<Token>, ms: seq<Marker>, k: nat)
    requires Anatomy(text, items, ts, ms) && Within(text, ValueSpans(ms)) && k <= |ms|
    ensures |items| == 2 * |ms|
    ensures var (a, cs) := PiecesFrom(text, ms, k);
      Between(a, cs, items[if k == 0 then 0 else 2 * k - 1..], PieceStart(ms, k), if k == 0 then 1 else 2)
    decreases |ms| - k
  {
    hide Anatomy, Within, PiecesFrom;
    var off, n := if k == 0 then 0 else 2 * k - 1, if k == 0 then 1 else 2;
    AnatomyTok(text, items, ts, ms);
    SomeTok(items, off);
    if k == |ms| {
      PiecesEnd(text, ms);
    } else {
      MarkerEdges(text, items, ts, ms, k);
      PiecesStep(text, ms, k);
      BetweenFrom(text, items, ts, ms, k + 1);
      assert items[off..][n..] == items[2 * k + 1..];
      assert items[off..][n] == items[2 * k + 1] && items[off..][n - 1] == items[2 * k];
    }
  }

  lemma {:induction false} AnatomyTok(text: string, items: seq<Item>, ts: seq<Token>, ms: seq<Marker>)
    requires Anatomy(text, items, ts, ms)
    ensures AllTok(items) && |items| == 2 * |ms|
  {
  }

  lemma {:induction false} JointsFrom(text: string, items: seq<Item>, ts: seq<Token>, ms: seq<Marker>, k: nat)
    requires Anatomy(text, items, ts, ms) && Within(text, ValueSpans(ms)) && k <= |ms|
    ensures var (a, cs) := PiecesFrom(text, ms, k);
      Joints(cs) && EndsPiece(a, cs) && (k > 0 ==> a != "" && a[0] == '<')
    decreases |ms| - k
  {
    hide Anatomy, Within, PiecesFrom;
    if k == |ms| {
      PiecesEnd(text, ms);
      if k > 0 {
        MarkerEdges(text, items, ts, ms, k - 1);
        LastPiece(text, ms);
      }
    } else {
      MarkerEdges(text, items, ts, ms, k);
      if k > 0 { MarkerEdges(text, items, ts, ms, k - 1); }
      PiecesStep(text, ms, k);
      JointsFrom(text, items, ts, ms, k + 1);
      var cs, rest := PiecesFrom(text, ms, k).1, PiecesFrom(text, ms, k + 1).1;
      assert forall i :: 0 < i < |cs| ==> cs[i] == rest[i - 1];
    }
  }

  lemma {:induction false} LastPiece(text: string, ms: seq<Marker>)
    requires Within(text, ValueSpans(ms)) && ms != [] && ms[|ms| - 1].valueEnd <= |text|
    ensures PiecesFrom(text, ms, |ms|).0 == text[ms[|ms| - 1].valueEnd..]
  {
    OrderFrom(text, ms, |ms|);
  }

  ghost function PiecesOf(text: string): (string, seq<Chunk>)
    requires Sound(text)
  {
    MarkersWithin(text);
    PiecesFrom(text, FindMarkers(text).markers, 0)
  }

  lemma {:induction false} PiecesAre(text: string)
    requires Sound(text)
    ensures var spans := ValueSpans(FindMarkers(text).markers);
      InOrder(text, spans, 0) && PiecesOf(text) == (Front(text, spans, 0), Chunks(text, spans, 0))
    ensures Full(PiecesOf(text).0, PiecesOf(text).1) == text &&
      Bare(PiecesOf(text).0, PiecesOf(text).1) == Emptied(text)
  {
    hide Sound, FindMarkers, Within, Full, Bare, InOrder, Chunks, Weave;
    MarkersWithin(text);
    var ms := FindMarkers(text).markers;
    OrderFrom(text, ms, 0);
    assert ValueSpans(ms)[0..] == ValueSpans(ms) && text[0..] == text;
    ChunksText(text, ValueSpans(ms), 0);
  }

  /** Each comment's inline code is the same in both texts exactly when it is so piece by piece. */
  lemma {:induction false} SameCodeIs(text: string)
    requires Sound(text)
    ensures AgreeAll(text, Emptied(text), 0, 0, PiecesOf(text).0, PiecesOf(text).1) <==> SameCode(text)
  {
    hide Sound, FindMarkers, Within, CommentAt, CodeAt, Emptied, InOrder, PiecesOf, Outside, InPiece;
    PiecesAre(text);
    var spans := ValueSpans(FindMarkers(text).markers);
    var (a, cs) := PiecesOf(text);
    forall p: nat | p < |text|
      ensures InPiece(a, cs, p) <==> Outside(spans, p)
      ensures Taken(a, cs, p) == BarePosition(spans, p)
    {
      InPieceIs(text, spans, 0, p);
      TakenIs(text, spans, 0, p);
    }
    AgreeSame(text, a, cs);
  }

  lemma {:induction false} AgreeSame(text: string, a: string, cs: seq<Chunk>)
    requires var spans := ValueSpans(FindMarkers(text).markers);
      forall p: nat :: p < |text| ==>
        (InPiece(a, cs, p) <==> Outside(spans, p)) && Taken(a, cs, p) == BarePosition(spans, p)
    ensures AgreeAll(text, Emptied(text), 0, 0, a, cs) <==> SameCode(text)
  {
    hide FindMarkers, CommentAt, CodeAt, Emptied, Outside, InPiece, BarePosition, Taken, AgreeAt;
    forall p: nat
      ensures AgreeAt(text, Emptied(text), 0, 0, a, cs, p) <==>
        (p < |text| && InPiece(a, cs, p) && CommentAt(text, p) ==>
          (CodeAt(text, p) <==> CodeAt(Emptied(text), Taken(a, cs, p))))
    {
      AgreeAtStart(text, Emptied(text), a, cs, p);
    }
    if SameCode(text) {
      forall p: nat ensures AgreeAt(text, Emptied(text), 0, 0, a, cs, p) {
      }
    }
    if AgreeAll(text, Emptied(text), 0, 0, a, cs) {
      var spans := ValueSpans(FindMarkers(text).markers);
      forall p: nat | p < |text| && Outside(spans, p) && CommentAt(text, p)
        ensures CodeAt(text, p) <==> CodeAt(Emptied(text), BarePosition(spans, p))
      {
        assert AgreeAt(text, Emptied(text), 0, 0, a, cs, p);
      }
    }
  }

  lemma {:induction false} AgreeAtStart(t: string, e: string, a: string, cs: seq<Chunk>, p: nat)
    ensures AgreeAt(t, e, 0, 0, a, cs, p) <==>
      (p < |t| && InPiece(a, cs, p) && CommentAt(t, p) ==> (CodeAt(t, p) <==> CodeAt(e, Taken(a, cs, p))))
  {
    hide CommentAt, CodeAt, InPiece, Taken;
  }

  ghost predicate SameTokens(text: string)
    requires Sound(text)
  {
    Corresponds(Items(text, 0, 1, false), Items(Emptied(text), 0, 1, false), PiecesOf(text).0, PiecesOf(text).1, 0, 0)
  }

  /** Scanning the emptied text finds the same comments at their places exactly when each keeps its
      inline code. */
  lemma {:induction false} TokensIffCode(text: string)
    requires Sound(text)
    ensures SameTokens(text) <==> SameCode(text)
  {
    hide Sound, FindMarkers, Within, Emptied, InOrder, Items, Corresponds, Agree, AgreeAll, SameCode, Full, Bare,
      Anatomy, Between, Joints, EndsPiece, PiecesFrom;
    MarkersWithin(text);
    SoundAnatomy(text);
    PiecesAre(text);
    var ms, items, ts := FindMarkers(text).markers, Items(text, 0, 1, false), TokensOf(text);
    var (a, cs) := PiecesOf(text);
    BetweenFrom(text, items, ts, ms, 0);
    JointsFrom(text, items, ts, ms, 0);
    assert items[0..] == items;
    FrontSome(text);
    WalkLine(a, cs, false, 0, 1, 0, 1, 1);
    assert text[0..] == text && Emptied(text)[0..] == Emptied(text);
    AgreeIffAll(text, Emptied(text), 0, 0, a, cs);
    SameCodeIs(text);
  }

  lemma {:induction false} FrontSome(text: string)
    requires Sound(text)
    ensures PiecesOf(text).1 != [] ==> PiecesOf(text).0 != ""
  {
    hide Sound, FindMarkers, Within, InOrder, Anatomy, PiecesFrom, Items, TokensOf;
    MarkersWithin(text);
    SoundAnatomy(text);
    var ms := FindMarkers(text).markers;
    if ms == [] {
      PiecesEnd(text, ms);
    } else {
      MarkerEdges(text, Items(text, 0, 1, false), TokensOf(text), ms, 0);
      PiecesStep(text, ms, 0);
    }
  }

  // ----- the same comments in the emptied text -----

  /** No value reaches into the stretch from `x` to `y`. */
  ghost predicate Apart(spans: seq<Span>, x: nat, y: nat) {
    forall i :: 0 <= i < |spans| ==> spans[i].to <= x || y <= spans[i].from
  }

  function Emptying(text: string, spans: seq<Span>, b: nat): string {
    Weave(text, b, spans, Empties(|spans|))
  }

  lemma {:induction false} EmptyingStep(text: string, spans: seq<Span>, b: nat)
    requires InOrder(text, spans, b)
    ensures spans == [] ==> Emptying(text, spans, b) == text[b..]
    ensures spans != [] ==> Emptying(text, spans, b) == text[b..spans[0].from] + Emptying(text, spans[1..], spans[0].to)
  {
    hide Within, InOrder, Empties;
    InOrderBound(text, spans, b);
    if spans == [] {
      assert text[b..|text|] == text[b..];
    } else {
      SpanBounds(text, spans, b);
      EmptiesStep(|spans|);
      assert text[b..spans[0].from] + "" == text[b..spans[0].from];
    }
  }

  lemma {:induction false} SliceInFirst(p: string, w: string, x: nat, y: nat)
    requires x <= y <= |p|
    ensures (p + w)[x..y] == p[x..y]
  {
  }

  lemma {:induction false} SliceInSecond(p: string, w: string, x: nat, y: nat)
    requires x <= y <= |w|
    ensures (p + w)[|p| + x..|p| + y] == w[x..y]
  {
  }

  lemma {:induction false} SliceOfSlice(t: string, b: nat, c: nat, x: nat, y: nat)
    requires b <= x <= y <= c <= |t|
    ensures t[b..c][x - b..y - b] == t[x..y]
  {
    var l, r := t[b..c][x - b..y - b], t[x..y];
    assert forall i :: 0 <= i < |l| ==> l[i] == r[i];
  }

  /** A stretch without values is kept as it is. */
  lemma {:induction false} RangeKept(text: string, spans: seq<Span>, b: nat, x: nat, y: nat)
    requires InOrder(text, spans, b) && b <= x <= y <= |text| && Apart(spans, x, y)
    ensures ValueBefore(spans, x) == ValueBefore(spans, y) <= x - b
    ensures var w, from := Emptying(text, spans, b), x - b - ValueBefore(spans, x);
      from + (y - x) <= |w| && w[from..from + (y - x)] == text[x..y]
    decreases |spans|
  {
    hide Within, InOrder, Emptying, Apart, ValueBefore;
    EmptyingStep(text, spans, b);
    var w := Emptying(text, spans, b);
    if spans == [] {
      NoSpans(x);
      NoSpans(y);
      SliceOfSlice(text, b, |text|, x, y);
      assert text[b..|text|] == text[b..];
    } else {
      SpanBounds(text, spans, b);
      InOrderTail(text, spans, b);
      ApartTail(spans, x, y);
      if spans[0].to <= x {
        RangeBehind(text, spans, b, x, y);
      } else {
        BeforeFirst(spans, x);
        BeforeFirst(spans, y);
        SliceInFirst(text[b..spans[0].from], Emptying(text, spans[1..], spans[0].to), x - b, y - b);
        SliceOfSlice(text, b, spans[0].from, x, y);
      }
    }
  }

  lemma {:induction false} RangeBehind(text: string, spans: seq<Span>, b: nat, x: nat, y: nat)
    requires InOrder(text, spans, b) && spans != [] && b <= x <= y <= |text| && Apart(spans, x, y) && spans[0].to <= x
    ensures ValueBefore(spans, x) == ValueBefore(spans, y) <= x - b
    ensures var w, from := Emptying(text, spans, b), x - b - ValueBefore(spans, x);
      from + (y - x) <= |w| && w[from..from + (y - x)] == text[x..y]
    decreases |spans|, 0
  {
    hide Within, InOrder, Emptying, Apart, ValueBefore;
    EmptyingStep(text, spans, b);
    SpanBounds(text, spans, b);
    InOrderTail(text, spans, b);
    ApartTail(spans, x, y);
    RangeKept(text, spans[1..], spans[0].to, x, y);
    NoneBefore(text, spans[1..], spans[0].to, spans[0].to);
    ValueAfter(spans, x);
    ValueAfter(spans, y);
    var k := x - spans[0].to - ValueBefore(spans[1..], x);
    SliceInSecond(text[b..spans[0].from], Emptying(text, spans[1..], spans[0].to), k, k + (y - x));
  }

  lemma {:induction false} NoSpans(x: nat)
    ensures ValueBefore([], x) == 0
  {
  }

  lemma {:induction false} BeforeFirst(spans: seq<Span>, x: nat)
    requires spans != [] && x <= spans[0].from
    ensures ValueBefore(spans, x) == 0
  {
  }

  lemma {:induction false} ApartTail(spans: seq<Span>, x: nat, y: nat)
    requires Apart(spans, x, y) && spans != []
    ensures Apart(spans[1..], x, y) && (spans[0].to <= x || y <= spans[0].from)
  {
    assert forall i :: 0 <= i < |spans| - 1 ==> spans[1..][i] == spans[i + 1];
  }

  /** Behind a whole value, all of it counts. */
  lemma {:induction false} ValueAfter(spans: seq<Span>, x: nat)
    requires spans != [] && spans[0].from <= spans[0].to <= x
    requires x == spans[0].from ==> ValueBefore(spans[1..], x) == 0
    ensures ValueBefore(spans, x) == spans[0].to - spans[0].from + ValueBefore(spans[1..], x)
  {
  }

  /** The marker as the emptied text would hold it. */
  ghost predicate BareMarker(spans: seq<Span>, m: Marker, m': Marker) {
    m'.name == m.name && m'.floor == m.floor && m'.value == "" &&
    m'.start == BarePosition(spans, m.start) && m'.end == BarePosition(spans, m.end) &&
    m'.valueStart == BarePosition(spans, m.valueStart) && m'.valueEnd == BarePosition(spans, m.valueEnd)
  }

  ghost predicate AllBare(spans: seq<Span>, ms: seq<Marker>, ms': seq<Marker>) {
    |ms'| == |ms| && forall j :: 0 <= j < |ms| ==> BareMarker(spans, ms[j], ms'[j])
  }

  ghost function PieceEnd(text: string, ms: seq<Marker>, k: nat): nat
    requires k <= |ms|
  {
    if k == |ms| then |text| else ms[k].valueStart
  }

  /** A stretch between two neighbouring values holds no value. */
  lemma {:induction false} ApartIn(text: string, ms: seq<Marker>, k: nat, x: nat, y: nat)
    requires Within(text, ValueSpans(ms)) && k <= |ms| && PieceStart(ms, k) <= x <= y <= PieceEnd(text, ms, k)
    ensures Apart(ValueSpans(ms), x, y) && y <= |text|
  {
    var s := ValueSpans(ms);
    forall i | 0 <= i < |s| ensures s[i].to <= x || y <= s[i].from {
      if i < k {
        assert i < k - 1 ==> s[i].to <= s[k - 1].from <= s[k - 1].to;
        assert s[k - 1].to == PieceStart(ms, k);
      } else {
        assert i > k ==> s[k].from <= s[k].to <= s[i].from;
      }
    }
    if k < |ms| {
      assert s[k].from <= |text|;
    }
  }

  /** Inside a piece, distances and characters are kept. */
  lemma {:induction false} PieceKept(text: string, k: nat, x: nat, y: nat)
    requires Sound(text) && k <= |FindMarkers(text).markers|
    requires var ms := FindMarkers(text).markers; PieceStart(ms, k) <= x <= y <= PieceEnd(text, ms, k)
    ensures var spans, e := ValueSpans(FindMarkers(text).markers), Emptied(text);
      var x', y' := BarePosition(spans, x), BarePosition(spans, y);
      y' - x' == y - x && x' <= y' && Slice(e, x', y') == Slice(text, x, y)
  {
    hide Sound, FindMarkers, Within, InOrder, Weave, ValueBefore, Apart, Empties;
    MarkersWithin(text);
    var ms := FindMarkers(text).markers;
    ApartIn(text, ms, k, x, y);
    PiecesAre(text);
    RangeKept(text, ValueSpans(ms), 0, x, y);
  }

  lemma {:induction false} BareEnds(text: string)
    requires Sound(text)
    ensures var spans := ValueSpans(FindMarkers(text).markers);
      BarePosition(spans, 0) == 0 && BarePosition(spans, |text|) == |Emptied(text)|
  {
    hide Sound, FindMarkers, Within, InOrder, Weave, Empties;
    PiecesAre(text);
    var spans := ValueSpans(FindMarkers(text).markers);
    EmptiedLength(text, spans, 0);
  }

  lemma {:induction false} EmptiedLength(text: string, spans: seq<Span>, b: nat)
    requires InOrder(text, spans, b)
    ensures b <= |text| && ValueBefore(spans, |text|) + |Emptying(text, spans, b)| == |text| - b
    decreases |spans|
  {
    hide Within, InOrder, Emptying, ValueBefore;
    EmptyingStep(text, spans, b);
    InOrderBound(text, spans, b);
    if spans == [] {
      NoSpans(|text|);
    } else {
      SpanBounds(text, spans, b);
      InOrderTail(text, spans, b);
      EmptiedLength(text, spans[1..], spans[0].to);
      NoneBefore(text, spans[1..], spans[0].to, spans[0].to);
      ValueAfter(spans, |text|);
    }
  }

  /** Both ends of a value have the same place once it is taken out. */
  lemma {:induction false} ValueGone(text: string, spans: seq<Span>, b: nat, k: nat)
    requires InOrder(text, spans, b) && k < |spans|
    ensures spans[k].from <= spans[k].to
    ensures ValueBefore(spans, spans[k].to) == ValueBefore(spans, spans[k].from) + (spans[k].to - spans[k].from)
    decreases |spans|
  {
    hide Within, InOrder, ValueBefore;
    SpanBounds(text, spans, b);
    InOrderTail(text, spans, b);
    if k == 0 {
      BeforeFirst(spans, spans[0].from);
      NoneBefore(text, spans[1..], spans[0].to, spans[0].to);
      ValueAfter(spans, spans[0].to);
    } else {
      ValueGone(text, spans[1..], spans[0].to, k - 1);
      assert spans[1..][k - 1] == spans[k];
      NoneBefore(text, spans[1..], spans[0].to, spans[0].to);
      ValueAfter(spans, spans[k].from);
      ValueAfter(spans, spans[k].to);
    }
  }

  lemma {:induction false} BareValue(text: string, j: nat)
    requires Sound(text) && j < |FindMarkers(text).markers|
    ensures var ms := FindMarkers(text).markers; var spans := ValueSpans(ms);
      BarePosition(spans, ms[j].valueStart) == BarePosition(spans, ms[j].valueEnd)
  {
    hide Sound, FindMarkers, Within, InOrder, ValueBefore, Emptied;
    PiecesAre(text);
    var ms := FindMarkers(text).markers;
    MarkersWithin(text);
    ValueGone(text, ValueSpans(ms), 0, j);
    TakenIs(text, ValueSpans(ms), 0, ms[j].valueStart);
    TakenIs(text, ValueSpans(ms), 0, ms[j].valueEnd);
  }

  /** The stretches of a marker around its value, inside their pieces. */
  lemma {:induction false} MarkerInPieces(text: string, j: nat)
    requires Sound(text) && j < |FindMarkers(text).markers|
    ensures var ms := FindMarkers(text).markers;
      PieceStart(ms, j) <= ms[j].start <= ms[j].valueStart == PieceEnd(text, ms, j) &&
      PieceStart(ms, j + 1) == ms[j].valueEnd <= ms[j].end <= PieceEnd(text, ms, j + 1)
  {
    hide Sound, FindMarkers, Within, Anatomy, Items, TokensOf;
    SoundAnatomy(text);
    var ms := FindMarkers(text).markers;
    MarkerEdges(text, Items(text, 0, 1, false), TokensOf(text), ms, j);
    if j + 1 < |ms| {
      MarkerEdges(text, Items(text, 0, 1, false), TokensOf(text), ms, j + 1);
    }
  }

  /** Comments at their places leave everything outside the values, and outside the markers, as it was. */
  lemma {:induction false} BareOutside(text: string, ms': seq<Marker>)
    requires Sound(text) && AllBare(ValueSpans(FindMarkers(text).markers), FindMarkers(text).markers, ms')
    ensures SameOutside(text, FindMarkers(text).markers, Emptied(text), ms')
  {
    hide Sound, FindMarkers, Emptied, Slice, BarePosition;
    var ms := FindMarkers(text).markers;
    BareEnds(text);
    forall j | 0 <= j <= |ms|
      ensures Piece(text, ValueSpans(ms), j) == Piece(Emptied(text), ValueSpans(ms'), j)
      ensures Piece(text, WholeSpans(ms), j) == Piece(Emptied(text), WholeSpans(ms'), j)
    {
      if j < |ms| { MarkerInPieces(text, j); }
      if j > 0 { MarkerInPieces(text, j - 1); }
      PieceLow(text, j);
      PieceKept(text, j, PieceStart(ms, j), PieceEnd(text, ms, j));
      var lo, hi := if j == 0 then 0 else ms[j - 1].end, if j == |ms| then |text| else ms[j].start;
      PieceInner(text, j);
      PieceKept(text, j, lo, hi);
      assert j > 0 ==> BareMarker(ValueSpans(ms), ms[j - 1], ms'[j - 1]);
      assert j < |ms| ==> BareMarker(ValueSpans(ms), ms[j], ms'[j]);
    }
  }

  lemma {:induction false} PieceLow(text: string, j: nat)
    requires Sound(text) && j <= |FindMarkers(text).markers|
    ensures PieceStart(FindMarkers(text).markers, j) <= PieceEnd(text, FindMarkers(text).markers, j)
  {
    hide Sound, FindMarkers;
    var ms := FindMarkers(text).markers;
    if j < |ms| {
      MarkerInPieces(text, j);
    } else if j > 0 {
      MarkerInPieces(text, j - 1);
    }
  }

  lemma {:induction false} PieceInner(text: string, j: nat)
    requires Sound(text) && j <= |FindMarkers(text).markers|
    ensures var ms := FindMarkers(text).markers;
      var lo, hi := if j == 0 then 0 else ms[j - 1].end, if j == |ms| then |text| else ms[j].start;
      PieceStart(ms, j) <= lo <= hi <= PieceEnd(text, ms, j)
  {
    hide Sound, FindMarkers, Anatomy, Items, TokensOf;
    SoundAnatomy(text);
    var ms := FindMarkers(text).markers;
    if j < |ms| {
      MarkerEdges(text, Items(text, 0, 1, false), TokensOf(text), ms, j);
    }
    if j > 0 {
      MarkerEdges(text, Items(text, 0, 1, false), TokensOf(text), ms, j - 1);
    }
  }

  // ----- the exact condition -----

  /** Two lists of tokens whose markers are at their places in the emptied text. */
  ghost predicate TokensBare(spans: seq<Span>, xs: seq<Item>, ys: seq<Item>) {
    |xs| == |ys| && AllTok(xs) && AllTok(ys) && forall i :: 0 <= i < |xs| ==> TokenBare(spans, xs[i].token, ys[i].token)
  }

  ghost predicate TokenBare(spans: seq<Span>, x: Token, y: Token) {
    (x.Open? <==> y.Open?) && (x.Open? ==> y.name == x.name && y.floor == x.floor) &&
    y.start == BarePosition(spans, x.start) && y.end == BarePosition(spans, x.end)
  }

  lemma {:induction false} TokensBareIs(text: string, ys: seq<Item>)
    requires Sound(text)
    ensures Corresponds(Items(text, 0, 1, false), ys, PiecesOf(text).0, PiecesOf(text).1, 0, 0) <==>
      TokensBare(ValueSpans(FindMarkers(text).markers), Items(text, 0, 1, false), ys)
  {
    hide Sound, FindMarkers, Items, PiecesOf, BarePosition, Taken, Within, InOrder, Anatomy, TokenBare, Match;
    SoundAnatomy(text);
    var xs, spans := Items(text, 0, 1, false), ValueSpans(FindMarkers(text).markers);
    var (a, cs) := PiecesOf(text);
    AnatomyTok(text, xs, TokensOf(text), FindMarkers(text).markers);
    forall i | 0 <= i < |xs| && i < |ys|
      ensures Match(xs[i], ys[i], a, cs, 0, 0) <==> ys[i].Tok? && TokenBare(spans, xs[i].token, ys[i].token)
    {
      MatchBare(text, i, ys[i]);
    }
  }

  lemma {:induction false} MatchBare(text: string, i: nat, y: Item)
    requires Sound(text) && i < |Items(text, 0, 1, false)| && Items(text, 0, 1, false)[i].Tok?
    ensures var x, spans := Items(text, 0, 1, false)[i], ValueSpans(FindMarkers(text).markers);
      Match(x, y, PiecesOf(text).0, PiecesOf(text).1, 0, 0) <==> y.Tok? && TokenBare(spans, x.token, y.token)
  {
    hide Sound, FindMarkers, Items, PiecesOf, Taken, Within, InOrder, ValueBefore, Front, Chunks;
    PiecesAre(text);
    ItemsPlaced(text, 0, 1, false, i);
    var x, spans := Items(text, 0, 1, false)[i].token, ValueSpans(FindMarkers(text).markers);
    TakenIs(text, spans, 0, x.start);
    TakenIs(text, spans, 0, x.end);
  }

  /** Comments at their places make the emptied text hold the same figures. */
  lemma {:induction false} TokensEmpty(text: string)
    requires Sound(text)
    requires TokensBare(ValueSpans(FindMarkers(text).markers), Items(text, 0, 1, false),
      Items(Emptied(text), 0, 1, false))
    ensures EmptiesWell(text)
  {
    hide Sound, FindMarkers, Items, Anatomy, Emptied, BarePosition, AllBare, SameOutside, TokensBare, Paired, OneLine,
      MarkersFrom,
      SameComments, Tokens, Bads;
    var e := Emptied(text);
    var ms, spans := FindMarkers(text).markers, ValueSpans(FindMarkers(text).markers);
    var xs, ys, ts := Items(text, 0, 1, false), Items(e, 0, 1, false), TokensOf(e);
    SoundAnatomy(text);
    PairsBare(text, ys);
    AnatomySound(e, ts);
    BareMarkers(text, ys, FindMarkers(e).markers);
    BareOutside(text, FindMarkers(e).markers);
    BareHolding(text, FindMarkers(e).markers);
    EmptiedIs(text);
  }

  lemma {:induction false} PairsBare(text: string, ys: seq<Item>)
    requires Sound(text) && TokensBare(ValueSpans(FindMarkers(text).markers), Items(text, 0, 1, false), ys)
    ensures AllTok(ys) && Paired(Tokens(ys)) && OneLine(Emptied(text), Tokens(ys)) &&
      |ys| == 2 * |FindMarkers(text).markers|
  {
    hide Sound, FindMarkers, Items, Emptied, BarePosition, Tokens, Bads, Anatomy;
    SoundAnatomy(text);
    var ms, xs := FindMarkers(text).markers, Items(text, 0, 1, false);
    AllTokens(ys);
    AnatomyTok(text, xs, TokensOf(text), ms);
    forall j | 0 <= j < |ms|
      ensures Tokens(ys)[2 * j].Open? && Tokens(ys)[2 * j + 1].Close?
      ensures Tokens(ys)[2 * j].end == Tokens(ys)[2 * j + 1].start
    {
      MarkerEdges(text, xs, TokensOf(text), ms, j);
      BareValue(text, j);
      assert TokenBare(ValueSpans(ms), xs[2 * j].token, ys[2 * j].token);
      assert TokenBare(ValueSpans(ms), xs[2 * j + 1].token, ys[2 * j + 1].token);
    }
    PairedBy(Emptied(text), Tokens(ys));
  }

  lemma {:induction false} PairedBy(e: string, ts: seq<Token>)
    requires |ts| % 2 == 0
    requires forall j :: 0 <= j < |ts| / 2 ==>
      ts[2 * j].Open? && ts[2 * j + 1].Close? && ts[2 * j].end == ts[2 * j + 1].start
    ensures Paired(ts) && OneLine(e, ts)
  {
    forall i | 0 <= i < |ts| ensures ts[i].Open? <==> i % 2 == 0 {
      var j := i / 2;
      assert i == 2 * j || i == 2 * j + 1;
      assert ts[2 * j].Open? && ts[2 * j + 1].Close?;
    }
  }

  lemma {:induction false} BareMarkers(text: string, ys: seq<Item>, ms': seq<Marker>)
    requires Sound(text) && TokensBare(ValueSpans(FindMarkers(text).markers), Items(text, 0, 1, false), ys)
    requires Paired(Tokens(ys)) && MarkersFrom(Emptied(text), Tokens(ys), ms') &&
      |ys| == 2 * |FindMarkers(text).markers|
    ensures AllBare(ValueSpans(FindMarkers(text).markers), FindMarkers(text).markers, ms')
  {
    hide Sound, FindMarkers, Items, Emptied, BarePosition, Tokens, Bads, Anatomy, Slice;
    SoundAnatomy(text);
    var ms, xs := FindMarkers(text).markers, Items(text, 0, 1, false);
    AllTokens(ys);
    forall j | 0 <= j < |ms| ensures BareMarker(ValueSpans(ms), ms[j], ms'[j]) {
      MarkerEdges(text, xs, TokensOf(text), ms, j);
      BareValue(text, j);
      assert TokenBare(ValueSpans(ms), xs[2 * j].token, ys[2 * j].token);
      assert TokenBare(ValueSpans(ms), xs[2 * j + 1].token, ys[2 * j + 1].token);
      SliceNothing(Emptied(text), ms'[j].valueStart);
    }
  }

  lemma {:induction false} SliceNothing(t: string, x: nat)
    ensures Slice(t, x, x) == ""
  {
  }

  lemma {:induction false} BareHolding(text: string, ms': seq<Marker>)
    requires Sound(text) && AllBare(ValueSpans(FindMarkers(text).markers), FindMarkers(text).markers, ms')
    ensures Holding(FindMarkers(text).markers, ms', Empties(|FindMarkers(text).markers|))
  {
    hide Sound, FindMarkers, Emptied, BarePosition, Slice;
    var ms := FindMarkers(text).markers;
    forall j | 0 <= j < |ms| ensures SameComments(ms[j], ms'[j]) && ms'[j].value == Empties(|ms|)[j] {
      assert BareMarker(ValueSpans(ms), ms[j], ms'[j]);
      MarkerInPieces(text, j);
      PieceKept(text, j, ms[j].start, ms[j].valueStart);
      PieceKept(text, j + 1, ms[j].valueEnd, ms[j].end);
    }
  }

  /** And only then: the emptied text's own comments tell where they stand. */
  lemma {:induction false} EmptyTokens(text: string)
    requires Sound(text) && EmptiesWell(text)
    ensures TokensBare(ValueSpans(FindMarkers(text).markers), Items(text, 0, 1, false),
      Items(Emptied(text), 0, 1, false))
  {
    hide Sound, FindMarkers, Items, Anatomy, Emptied, BarePosition, SameOutside, Holding, TokenBare, TokensOf;
    var e := Emptied(text);
    assert Rescans(text, Empties(|FindMarkers(text).markers|)) &&
      e == Weave(text, 0, ValueSpans(FindMarkers(text).markers), Empties(|FindMarkers(text).markers|)) by {
      EmptiedIs(text);
    }
    var ms, ms' := FindMarkers(text).markers, FindMarkers(e).markers;
    var xs, ys, spans := Items(text, 0, 1, false), Items(e, 0, 1, false), ValueSpans(ms);
    SoundAnatomy(text);
    SoundAnatomy(e);
    AnatomyTok(text, xs, TokensOf(text), ms);
    AnatomyTok(e, ys, TokensOf(e), ms');
    HoldingSize(ms, ms', Empties(|ms|));
    forall j | 0 <= j < |ms|
      ensures TokenBare(spans, xs[2 * j].token, ys[2 * j].token) &&
        TokenBare(spans, xs[2 * j + 1].token, ys[2 * j + 1].token)
    {
      BareFrom(text, j);
    }
    forall i | 0 <= i < |xs| ensures TokenBare(spans, xs[i].token, ys[i].token) {
      var j := i / 2;
      assert i == 2 * j || i == 2 * j + 1;
    }
  }

  lemma {:induction false} EmptiedIs(text: string)
    ensures Emptied(text) == Weave(text, 0, ValueSpans(FindMarkers(text).markers), Empties(|FindMarkers(text).markers|))
  {
    hide FindMarkers, Weave, Empties;
  }

  /** The value of the `j`-th marker of the emptied text stands where its place is. */
  lemma {:induction false} PlaceOf(text: string, ms': seq<Marker>, j: nat)
    requires Sound(text) && Sound(Emptied(text)) && ms' == FindMarkers(Emptied(text)).markers
    requires j < |FindMarkers(text).markers|
    requires Holding(FindMarkers(text).markers, ms', Empties(|FindMarkers(text).markers|))
    requires SameOutside(text, FindMarkers(text).markers, Emptied(text), ms')
    ensures |ms'| == |FindMarkers(text).markers| && ms'[j].valueEnd == ms'[j].valueStart
    ensures var ms := FindMarkers(text).markers; ms'[j].valueStart == BarePosition(ValueSpans(ms), ms[j].valueStart)
    decreases j
  {
    hide Sound, FindMarkers, Emptied, BarePosition, SameComments, Within;
    var ms := FindMarkers(text).markers;
    MarkersWithin(Emptied(text));
    MarkersWithin(text);
    BareEnds(text);
    assert ms'[j].value == "";
    assert |ms'[j].value| == ms'[j].valueEnd - ms'[j].valueStart;
    if j > 0 {
      PlaceOf(text, ms', j - 1);
      BareValue(text, j - 1);
      MarkerInPieces(Emptied(text), j);
    }
    PieceLow(text, j);
    PieceKept(text, j, PieceStart(ms, j), ms[j].valueStart);
    assert Piece(text, ValueSpans(ms), j) == Piece(Emptied(text), ValueSpans(ms'), j);
  }

  lemma {:induction false} BareComments(text: string, ms': seq<Marker>, j: nat)
    requires Sound(text) && j < |FindMarkers(text).markers| && Sound(Emptied(text))
    requires ms' == FindMarkers(Emptied(text)).markers
    requires Holding(FindMarkers(text).markers, ms', Empties(|FindMarkers(text).markers|))
    requires SameOutside(text, FindMarkers(text).markers, Emptied(text), ms')
    ensures |ms'| == |FindMarkers(text).markers|
    ensures BareMarker(ValueSpans(FindMarkers(text).markers), FindMarkers(text).markers[j], ms'[j])
  {
    hide Sound, FindMarkers, Emptied, BarePosition, SameOutside;
    var ms := FindMarkers(text).markers;
    PlaceOf(text, ms', j);
    BareValue(text, j);
    MarkerInPieces(text, j);
    PieceKept(text, j, ms[j].start, ms[j].valueStart);
    PieceKept(text, j + 1, ms[j].valueEnd, ms[j].end);
    assert SameComments(ms[j], ms'[j]);
  }

  lemma {:induction false} BareFrom(text: string, j: nat)
    requires Sound(text) && j < |FindMarkers(text).markers| && Sound(Emptied(text))
    requires var ms, ms' := FindMarkers(text).markers, FindMarkers(Emptied(text)).markers;
      Holding(ms, ms', Empties(|ms|)) && SameOutside(text, ms, Emptied(text), ms')
    ensures var xs, ys := Items(text, 0, 1, false), Items(Emptied(text), 0, 1, false);
      |xs| == |ys| == 2 * |FindMarkers(text).markers| && AllTok(xs) && AllTok(ys)
    ensures var spans := ValueSpans(FindMarkers(text).markers);
      TokenBare(spans, Items(text, 0, 1, false)[2 * j].token, Items(Emptied(text), 0, 1, false)[2 * j].token)
    ensures var spans := ValueSpans(FindMarkers(text).markers);
      TokenBare(spans, Items(text, 0, 1, false)[2 * j + 1].token, Items(Emptied(text), 0, 1, false)[2 * j + 1].token)
  {
    hide Sound, FindMarkers, Items, Anatomy, Emptied, BarePosition, SameOutside, TokensOf, Holding;
    var e := Emptied(text);
    var ms, ms' := FindMarkers(text).markers, FindMarkers(e).markers;
    SoundAnatomy(text);
    SoundAnatomy(e);
    BareComments(text, ms', j);
    AnatomyTok(text, Items(text, 0, 1, false), TokensOf(text), ms);
    AnatomyTok(e, Items(e, 0, 1, false), TokensOf(e), ms');
    MarkerEdges(text, Items(text, 0, 1, false), TokensOf(text), ms, j);
    MarkerEdges(e, Items(e, 0, 1, false), TokensOf(e), ms', j);
  }

  /** The values can be taken out, and so replaced by anything clean, exactly when every marker comment
      outside them keeps its place in or out of inline code. */
  lemma {:induction false} EmptiesWellIff(text: string)
    requires Sound(text)
    ensures EmptiesWell(text) <==> SameCode(text)
  {
    hide Sound, FindMarkers, Items, SameCode, EmptiesWell, TokensBare, Corresponds, PiecesOf, Emptied;
    TokensIffCode(text);
    TokensBareIs(text, Items(Emptied(text), 0, 1, false));
    if TokensBare(ValueSpans(FindMarkers(text).markers), Items(text, 0, 1, false), Items(Emptied(text), 0, 1, false)) {
      TokensEmpty(text);
    }
    if EmptiesWell(text) {
      EmptyTokens(text);
    }
  }

  /** Rewriting the values of a text without problems by clean ones scans back exactly when every marker
      comment outside the values keeps its place in or out of inline code. */
  lemma {:induction false} RescansIff(text: string, fills: seq<string>)
    requires Sound(text) && |fills| == |FindMarkers(text).markers| && forall j :: 0 <= j < |fills| ==> Clean(fills[j])
    ensures Rescans(text, fills) <==> SameCode(text)
  {
    hide Sound, FindMarkers, SameCode, Rescans, Clean;
    EmptiesWellIff(text);
    EmptyFills(|fills|);
    if Rescans(text, fills) {
      RescansAny(text, fills, Empties(|fills|));
    }
    if SameCode(text) {
      RescansAny(text, Empties(|fills|), fills);
    }
  }
}
