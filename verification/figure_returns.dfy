/** Carriage returns: the scan of a file as it is on disk and the scan of the text read from it. */
module FigureReturns {
  import opened Wrappers
  import opened FigureMarkers
  import opened FigureScan
  import opened FigureRewrite
  import opened RenderFigures

  // ----- one line with two endings -----

  /** Characters that end lines. */
  ghost predicate Ending(e: string) {
    forall i :: 0 <= i < |e| ==> IsBreak(e[i])
  }

  lemma {:induction false} BreaksAreSpaces(c: char)
    requires IsBreak(c)
    ensures IsSpace(c) && !IsWord(c) && c != '<' && c != '>' && c != '`' && c != '~' && c != '/' && c != '-'
  {
  }

  lemma {:induction false} SkipEnding(a: string, e: string, i: nat)
    requires Ending(e) && i <= |a|
    ensures SkipSpaces(a + e, i) == if SkipSpaces(a, i) < |a| then SkipSpaces(a, i) else |a + e|
    decreases |a| - i
  {
    hide IsSpace;
    var u := a + e;
    if i < |a| {
      assert u[i] == a[i];
      if IsSpace(a[i]) { SkipEnding(a, e, i + 1); }
    } else {
      SkipBreaks(u, i);
    }
  }

  lemma {:induction false} SkipBreaks(u: string, i: nat)
    requires i <= |u| && forall j :: i <= j < |u| ==> IsBreak(u[j])
    ensures SkipSpaces(u, i) == |u|
    decreases |u| - i
  {
    hide IsSpace;
    if i < |u| {
      BreaksAreSpaces(u[i]);
      SkipBreaks(u, i + 1);
    }
  }

  /** A literal without line boundaries is found in the line, not in its ending. */
  lemma {:induction false} LiteralEnding(a: string, e: string, i: nat, lit: string)
    requires Ending(e) && lit != "" && NoBreak(lit)
    ensures At(a + e, i, lit) <==> At(a, i, lit)
  {
    hide IsBreak;
    var u := a + e;
    if At(u, i, lit) {
      var j := i + |lit| - 1;
      assert u[j] == lit[|lit| - 1];
      InFront(a, e, j);
      assert u[i..i + |lit|] == a[i..i + |lit|];
    }
    if At(a, i, lit) {
      assert u[i..i + |lit|] == a[i..i + |lit|];
    }
  }

  lemma {:induction false} InFront(a: string, e: string, i: nat)
    requires Ending(e) && i < |a + e| && !IsBreak((a + e)[i])
    ensures i < |a|
  {
    hide IsBreak;
  }

  lemma {:induction false} BreakAt(a: string, e: string, i: nat)
    requires Ending(e) && |a| <= i < |a + e|
    ensures IsBreak((a + e)[i])
  {
    hide IsBreak;
    assert (a + e)[i] == e[i - |a|];
  }

  lemma {:induction false} Literals()
    ensures NoBreak("<!--") && NoBreak("fig") && NoBreak("```") && NoBreak("~~~")
  {
  }

  lemma {:induction false} FenceEnding(a: string, e: string)
    requires Ending(e)
    ensures IsFence(a + e) == IsFence(a)
  {
    hide SkipSpaces, At, NoBreak, Ending;
    Literals();
    SkipEnding(a, e, 0);
    LiteralEnding(a, e, SkipSpaces(a, 0), "```");
    LiteralEnding(a, e, SkipSpaces(a, 0), "~~~");
    AtEnd(a, |a|, "```");
    AtEnd(a, |a|, "~~~");
    AtEnd(a + e, |a + e|, "```");
    AtEnd(a + e, |a + e|, "~~~");
  }

  lemma {:induction false} AtEnd(a: string, i: nat, lit: string)
    requires i >= |a| && lit != ""
    ensures !At(a, i, lit)
  {
  }

  lemma {:induction false} KeywordEnding(a: string, e: string)
    requires Ending(e)
    ensures KeywordLen(a + e) == KeywordLen(a) <= |a|
    ensures KeywordLen(a) != 0 ==> IsClosing(a + e) == IsClosing(a)
  {
    hide SkipSpaces, At, NoBreak, Ending, IsWord;
    Literals();
    var u := a + e;
    LiteralEnding(a, e, 0, "<!--");
    if At(a, 0, "<!--") {
      assert |a| >= 4 by { AtFits(a, 0, "<!--"); }
      SkipEnding(a, e, 4);
      var k := SkipSpaces(a, 4);
      if k < |a| {
        assert u[k] == a[k];
        var b := if a[k] == '/' then k + 1 else k;
        LiteralEnding(a, e, b, "fig");
        if At(a, b, "fig") {
          AtFits(a, b, "fig");
          NextEnding(a, e, b + 3);
        }
      } else {
        AtEnd(a, |a|, "fig");
        AtEnd(u, |u|, "fig");
      }
    }
  }

  lemma {:induction false} AtFits(a: string, i: nat, lit: string)
    requires At(a, i, lit)
    ensures i + |lit| <= |a|
  {
  }

  lemma {:induction false} NextEnding(a: string, e: string, i: nat)
    requires Ending(e) && i <= |a|
    ensures (i < |a + e| ==> !IsWord((a + e)[i])) <==> (i < |a| ==> !IsWord(a[i]))
  {
    hide IsWord, IsBreak;
    if i == |a| && e != "" {
      assert (a + e)[i] == e[0];
      BreaksAreSpaces(e[0]);
    }
  }

  lemma {:induction false} FindEnding(a: string, e: string, i: nat)
    requires Ending(e) && i <= |a|
    ensures Find(a + e, i, '>') == if Find(a, i, '>') < |a| then Find(a, i, '>') else |a + e|
  {
    hide IsBreak;
    var u := a + e;
    var g, h := Find(a, i, '>'), Find(u, i, '>');
    if h < |u| {
      if h >= |a| {
        BreakAt(a, e, h);
        BreaksAreSpaces(u[h]);
      }
      assert u[h] == a[h];
      assert g < |a|;
    }
    if g < |a| {
      assert u[g] == a[g];
      assert forall k :: i <= k < h && k < |a| ==> u[k] == a[k];
    }
  }

  lemma {:induction false} ClassifyEnding(a: string, e: string)
    requires Ending(e) && KeywordLen(a) != 0 && KeywordLen(a + e) != 0
    ensures Classify(a + e) == Classify(a)
  {
    hide KeywordLen, IsClosing, Find, Trim, Decide;
    KeywordEnding(a, e);
    var k := KeywordLen(a);
    FindEnding(a, e, k);
    var g := Find(a, k, '>');
    if g < |a| && g >= k + 2 {
      assert (a + e)[k..g - 2] == a[k..g - 2];
    }
  }

  lemma {:induction false} TickEnding(a: string, e: string)
    requires Ending(e)
    ensures '`' in a + e <==> '`' in a
  {
    hide IsBreak;
    if '`' in a + e {
      var i :| 0 <= i < |a + e| && (a + e)[i] == '`';
      if i >= |a| {
        BreakAt(a, e, i);
        BreaksAreSpaces((a + e)[i]);
      }
    }
  }

  lemma {:induction false} HereEnding(a: string, e: string, odd: bool, at: nat, lineno: nat)
    requires Ending(e)
    ensures Here(a + e, odd, at, lineno) == Here(a, odd, at, lineno)
  {
    hide KeywordLen, Classify, Ending;
    KeywordEnding(a, e);
    TickEnding(a, e);
    if KeywordLen(a) != 0 {
      ClassifyEnding(a, e);
    }
  }

  lemma {:induction false} ScanEnding(a: string, e: string, odd: bool, at: nat, lineno: nat)
    requires Ending(e)
    ensures Scan(a + e, |a + e|, odd, at, lineno) == Scan(a, |a|, odd, at, lineno)
    decreases |a|
  {
    hide Here, Scan, IsBreak;
    if a == "" {
      assert a + e == e;
      forall i | 0 <= i < |e| ensures e[i] != '<' { BreaksAreSpaces(e[i]); }
      ScanNoAngle(e, |e|, odd, at, lineno);
      ScanNoAngle("", 0, odd, at, lineno);
    } else {
      ScanUnfold(a, |a|, odd, at, lineno);
      ScanUnfold(a + e, |a + e|, odd, at, lineno);
      HereEnding(a, e, odd, at, lineno);
      assert (a + e)[1..] == a[1..] + e && (a + e)[0] == a[0];
      ScanEnding(a[1..], e, odd != (a[0] == '`'), at + 1, lineno);
    }
  }

  lemma {:induction false} StartEnding(a: string, e: string)
    requires Ending(e)
    ensures HasStart(a + e) == HasStart(a)
  {
    hide KeywordLen, IsBreak, Ending;
    forall i | 0 <= i < |a| ensures KeywordLen((a + e)[i..]) == KeywordLen(a[i..]) {
      assert (a + e)[i..] == a[i..] + e;
      KeywordEnding(a[i..], e);
    }
    forall i | |a| <= i < |a + e| ensures KeywordLen((a + e)[i..]) == 0 {
      EndingAt(a, e, i);
      KeywordFirst((a + e)[i..]);
    }
  }

  lemma {:induction false} EndingAt(a: string, e: string, i: nat)
    requires Ending(e) && |a| <= i < |a + e|
    ensures (a + e)[i] != '<'
  {
    hide IsBreak;
    BreakAt(a, e, i);
    BreaksAreSpaces((a + e)[i]);
  }

  lemma {:induction false} KeywordFirst(u: string)
    requires u != "" && u[0] != '<'
    ensures KeywordLen(u) == 0
  {
    hide KeywordLen;
  }

  /** What a line gives does not depend on how it ends. */
  lemma {:induction false} LineItemsEnding(a: string, e: string, at: nat, lineno: nat, inFence: bool)
    requires Ending(e)
    ensures LineItems(a + e, at, lineno, inFence) == LineItems(a, at, lineno, inFence)
  {
    hide IsFence, HasStart, Scan, Ending;
    FenceEnding(a, e);
    StartEnding(a, e);
    ScanEnding(a, e, false, at, lineno);
  }

  // ----- reading in parts -----

  /** A carriage return and the newline behind it, which are read as one. */
  ghost predicate Joined(a: string, b: string) {
    a != "" && b != "" && a[|a| - 1] == '\r' && b[0] == '\n'
  }

  lemma {:induction false} ReadPlain(a: string, b: string)
    requires '\r' !in a
    ensures ReadText(a + b) == a + ReadText(b)
    decreases |a|
  {
    if a == "" {
      assert a + b == b && a + ReadText(b) == ReadText(b);
    } else {
      assert (a + b)[1..] == a[1..] + b;
      ReadPlain(a[1..], b);
      assert [a[0]] + (a[1..] + ReadText(b)) == a + ReadText(b);
    }
  }

  /** A file can be read in two parts. */
  lemma {:induction false} ReadConcat(a: string, b: string)
    requires !Joined(a, b)
    ensures ReadText(a + b) == ReadText(a) + ReadText(b)
    decreases |a|
  {
    if a == "" {
      assert a + b == b;
    } else if a[0] == '\r' && |a| > 1 && a[1] == '\n' {
      assert (a + b)[2..] == a[2..] + b;
      ReadConcat(a[2..], b);
    } else {
      assert (a + b)[1..] == a[1..] + b;
      ReadConcat(a[1..], b);
      if a[0] == '\r' && |a| == 1 && b != "" { assert (a + b)[1] == b[0]; }
    }
  }

  /** A carriage return, alone or before a newline, is read as one newline; nothing else changes. */
  lemma {:induction false} ReadsReturns(a: string, b: string)
    requires '\r' !in a
    ensures ReadText(a) == a
    ensures ReadText(a + "\r\n" + b) == a + "\n" + ReadText(b)
    ensures b == "" || b[0] != '\n' ==> ReadText(a + "\r" + b) == a + "\n" + ReadText(b)
  {
    hide ReadText;
    ReadPlain(a, "");
    NothingRead();
    assert a + "" == a;
    FrontReturn(b);
    ReadPlain(a, "\r\n" + b);
    ReadPlain(a, "\r" + b);
    ThreeParts(a, "\r\n", b);
    ThreeParts(a, "\r", b);
    ThreeParts(a, "\n", ReadText(b));
  }

  lemma {:induction false} ThreeParts(a: string, b: string, c: string)
    ensures a + (b + c) == a + b + c
  {
  }

  lemma {:induction false} FrontReturn(b: string)
    ensures ReadText("\r\n" + b) == "\n" + ReadText(b)
    ensures b == "" || b[0] != '\n' ==> ReadText("\r" + b) == "\n" + ReadText(b)
  {
    assert ("\r\n" + b)[2..] == b && ("\r" + b)[1..] == b;
  }

  // ----- the lines of a file and of the text read from it -----

  /** The first line of `raw` is `line + e`, that of the text is `line + e'`, and reading goes on behind it. */
  ghost predicate FirstLines(raw: string, line: string, e: string, e': string) {
    && Ending(e) && Ending(e') && '\r' !in line && LineLen(raw) == |line + e| && raw[..|line + e|] == line + e
    && ReadText(line + e) == line + e' && !Joined(line + e, raw[|line + e|..])
    && ReadText(raw) == line + e' + ReadText(raw[|line + e|..]) && LineLen(ReadText(raw)) == |line + e'|
    && (raw != "" ==> line + e != "" && line + e' != "")
  }

  lemma {:induction false} LinesOf(raw: string) returns (line: string, e: string, e': string)
    ensures FirstLines(raw, line, e, e')
    decreases |raw|
  {
    if raw == "" {
      line, e, e' := "", "", "";
    } else if EndsLine(raw) {
      line, e, e' := "", [raw[0]], if raw[0] == '\r' then "\n" else [raw[0]];
    } else if raw[0] == '\r' {
      line, e, e' := "", "\r\n", "\n";
      assert LineLen(raw[1..]) == 1;
    } else {
      line, e, e' := LinesOf(raw[1..]);
      LineGrows(raw, line, e, e');
      line := [raw[0]] + line;
    }
  }

  lemma {:induction false} OneMore(c: char, t: string)
    requires !IsBreak(c)
    ensures LineLen([c] + t) == 1 + LineLen(t) && ReadText([c] + t) == [c] + ReadText(t)
  {
    var u := [c] + t;
    assert u[1..] == t;
  }

  lemma {:induction false} LineGrows(raw: string, line: string, e: string, e': string)
    requires raw != "" && !IsBreak(raw[0]) && FirstLines(raw[1..], line, e, e')
    ensures FirstLines(raw, [raw[0]] + line, e, e')
  {
    hide IsBreak, LineLen, ReadText, Ending;
    var c, rest := raw[0], raw[1..];
    assert raw == [c] + rest;
    var n := |line + e|;
    assert ([c] + line) + e == [c] + (line + e);
    assert raw[..n + 1] == [c] + rest[..n];
    assert raw[n + 1..] == rest[n..];
    OneMore(c, rest);
    OneMore(c, ReadText(rest));
    OneMore(c, line + e);
    assert [c] + (line + e') == ([c] + line) + e';
    Regroup([c], line, e', ReadText(rest[n..]));
    assert c != '\r' by { NoReturn(c); }
    assert '\r' !in [c] + line;
  }

  lemma {:induction false} NoReturn(c: char)
    requires !IsBreak(c)
    ensures c != '\r'
  {
  }

  lemma {:induction false} Regroup(a: string, b: string, c: string, d: string)
    ensures a + (b + c + d) == (a + b) + c + d
  {
  }

  // ----- positions -----

  /** How much of the text has been read at position `p` of the file. */
  ghost function ReadTo(raw: string, p: nat): nat
    requires p <= |raw|
  {
    |ReadText(raw[..p])|
  }

  /** Position `p'` of the text is where position `p` of the file is read. */
  ghost predicate PlaceRead(raw: string, at: nat, at': nat, p: nat, p': nat) {
    at <= p <= at + |raw| && at' <= p' && p' - at' == ReadTo(raw, p - at)
  }

  /** The same item at the position where it is read. */
  ghost predicate Counterpart(raw: string, at: nat, at': nat, i: Item, i': Item) {
    match (i, i')
    case (Bad(b), Bad(b')) => b == b'
    case (Tok(Open(name, floor, start, end, line)), Tok(Open(name', floor', start', end', line'))) =>
      name == name' && floor == floor' && line == line' &&
      PlaceRead(raw, at, at', start, start') && PlaceRead(raw, at, at', end, end')
    case (Tok(Close(start, end, line)), Tok(Close(start', end', line'))) =>
      line == line' && PlaceRead(raw, at, at', start, start') && PlaceRead(raw, at, at', end, end')
    case _ => false
  }

  ghost predicate AllRead(raw: string, at: nat, at': nat, items: seq<Item>, items': seq<Item>) {
    |items| == |items'| && forall k :: 0 <= k < |items| ==> Counterpart(raw, at, at', items[k], items'[k])
  }

  lemma {:induction false} PlaceInLine(raw: string, line: string, at: nat, at': nat, p: nat)
    requires |line| <= |raw| && raw[..|line|] == line && '\r' !in line && at <= p <= at + |line|
    ensures PlaceRead(raw, at, at', p, p - at + at')
  {
    hide ReadText;
    var a := line[..p - at];
    assert raw[..p - at] == a && a + "" == a;
    ReadPlain(a, "");
    assert ReadText("") == "" by { NothingRead(); }
  }

  lemma {:induction false} NothingRead()
    ensures ReadText("") == ""
  {
  }

  lemma {:induction false} LineRead(raw: string, line: string, at: nat, at': nat, lineno: nat, inFence: bool)
    requires |line| <= |raw| && raw[..|line|] == line && '\r' !in line
    ensures AllRead(raw, at, at', LineItems(line, at, lineno, inFence), LineItems(line, at', lineno, inFence))
  {
    hide LineItems, PlaceRead;
    var items, items' := LineItems(line, at, lineno, inFence), LineItems(line, at', lineno, inFence);
    LineItemsMoved(line, at, at', lineno, inFence);
    forall k | 0 <= k < |items| ensures Counterpart(raw, at, at', items[k], items'[k]) {
      assert Moved(items[k], items'[k], at' - at);
      if items[k].Tok? {
        LineItemsPlaced(line, at, lineno, inFence, k);
        PlaceInLine(raw, line, at, at', items[k].token.start);
        PlaceInLine(raw, line, at, at', items[k].token.end);
      }
    }
  }

  lemma {:induction false} PlaceBehind(raw: string, n: nat, n': nat, at: nat, at': nat, p: nat, p': nat)
    requires n <= |raw| && |ReadText(raw[..n])| == n' && !Joined(raw[..n], raw[n..])
    requires PlaceRead(raw[n..], at + n, at' + n', p, p')
    ensures PlaceRead(raw, at, at', p, p')
  {
    hide ReadText;
    var x := raw[n..][..p - at - n];
    assert raw[..p - at] == raw[..n] + x;
    assert x != "" ==> x[0] == raw[n..][0];
    ReadConcat(raw[..n], x);
  }

  lemma {:induction false} ItemsBehind(raw: string, n: nat, n': nat, at: nat, at': nat, items: seq<Item>,
      items': seq<Item>)
    requires n <= |raw| && |ReadText(raw[..n])| == n' && !Joined(raw[..n], raw[n..])
    requires AllRead(raw[n..], at + n, at' + n', items, items')
    ensures AllRead(raw, at, at', items, items')
  {
    hide PlaceRead, Joined, ReadText;
    forall k | 0 <= k < |items| ensures Counterpart(raw, at, at', items[k], items'[k]) {
      assert Counterpart(raw[n..], at + n, at' + n', items[k], items'[k]);
      if items[k].Tok? {
        PlaceBehind(raw, n, n', at, at', items[k].token.start, items'[k].token.start);
        PlaceBehind(raw, n, n', at, at', items[k].token.end, items'[k].token.end);
      }
    }
  }

  lemma {:induction false} AllReadConcat(raw: string, at: nat, at': nat, a: seq<Item>, a': seq<Item>, b: seq<Item>,
      b': seq<Item>)
    requires AllRead(raw, at, at', a, a') && AllRead(raw, at, at', b, b')
    ensures AllRead(raw, at, at', a + b, a' + b')
  {
    hide Counterpart;
  }

  /** The text read from a file has the file's own marker comments and problems, each where it is read. */
  lemma {:induction false} ItemsRead(raw: string, at: nat, at': nat, lineno: nat, inFence: bool)
    ensures AllRead(raw, at, at', Items(raw, at, lineno, inFence), Items(ReadText(raw), at', lineno, inFence))
    decreases |raw|
  {
    hide LineItems, IsFence, LineLen, Items, AllRead, Ending, ReadText, Joined;
    if raw == "" {
      NoneRead(at, at', lineno, inFence);
    } else {
      var line, e, e' := LinesOf(raw);
      var n, n' := |line + e|, |line + e'|;
      var text, rest := ReadText(raw), raw[n..];
      assert text[..n'] == line + e' && text[n'..] == ReadText(rest);
      ItemsUnfold(raw, at, lineno, inFence);
      ItemsUnfold(text, at', lineno, inFence);
      LineItemsEnding(line, e, at, lineno, inFence);
      LineItemsEnding(line, e', at', lineno, inFence);
      FenceEnding(line, e);
      FenceEnding(line, e');
      assert raw[..|line|] == line;
      LineRead(raw, line, at, at', lineno, inFence);
      ItemsRead(rest, at + n, at' + n', lineno + 1, inFence != IsFence(line));
      var items, items' := Items(rest, at + n, lineno + 1, inFence != IsFence(line)),
        Items(ReadText(rest), at' + n', lineno + 1, inFence != IsFence(line));
      ItemsBehind(raw, n, n', at, at', items, items');
      AllReadConcat(raw, at, at', LineItems(line, at, lineno, inFence), LineItems(line, at', lineno, inFence), items,
        items');
    }
  }

  lemma {:induction false} NoneRead(at: nat, at': nat, lineno: nat, inFence: bool)
    ensures AllRead("", at, at', Items("", at, lineno, inFence), Items(ReadText(""), at', lineno, inFence))
  {
  }

  // ----- pairing -----

  /** Carriage returns and newlines are what is read as newlines. */
  lemma {:induction false} NewlinesRead(v: string)
    ensures '\n' in ReadText(v) <==> '\n' in v || '\r' in v
    decreases |v|
  {
    if v != "" {
      var n := if v[0] == '\r' && |v| > 1 && v[1] == '\n' then 2 else 1;
      NewlinesRead(v[n..]);
      assert v == v[..n] + v[n..];
    }
  }

  ghost predicate TokensRead(raw: string, ts: seq<Token>, ts': seq<Token>) {
    |ts| == |ts'| && forall k :: 0 <= k < |ts| ==>
      Placed(raw, 0, ts[k]) && Counterpart(raw, 0, 0, Tok(ts[k]), Tok(ts'[k]))
  }

  lemma {:induction false} TokensReadMore(raw: string, t: Token, t': Token, ts: seq<Token>, ts': seq<Token>)
    requires TokensRead(raw, ts, ts') && Counterpart(raw, 0, 0, Tok(t), Tok(t')) && Placed(raw, 0, t)
    ensures TokensRead(raw, [t] + ts, [t'] + ts')
  {
    hide Counterpart, Placed;
    var all, all' := [t] + ts, [t'] + ts';
    assert forall k :: 0 < k < |all| ==> all[k] == ts[k - 1] && all'[k] == ts'[k - 1];
  }

  lemma {:induction false} TokensReadFrom(raw: string, items: seq<Item>, items': seq<Item>)
    requires AllRead(raw, 0, 0, items, items')
    requires forall k :: 0 <= k < |items| && items[k].Tok? ==> Placed(raw, 0, items[k].token)
    ensures TokensRead(raw, Tokens(items), Tokens(items')) && Bads(items) == Bads(items')
    decreases |items|
  {
    hide Counterpart, Placed, TokensRead;
    if items == [] {
      NoTokens(raw);
    } else {
      var rest, rest' := items[1..], items'[1..];
      assert forall k :: 0 <= k < |rest| ==> rest[k] == items[k + 1] && rest'[k] == items'[k + 1];
      TokensReadFrom(raw, rest, rest');
      assert Counterpart(raw, 0, 0, items[0], items'[0]);
      SameKind(raw, items[0], items'[0]);
      if items[0].Tok? {
        TokensReadMore(raw, items[0].token, items'[0].token, Tokens(rest), Tokens(rest'));
      } else {
        assert [] + Tokens(rest) == Tokens(rest) && [] + Tokens(rest') == Tokens(rest');
      }
    }
  }

  lemma {:induction false} NoTokens(raw: string)
    ensures TokensRead(raw, Tokens([]), Tokens([])) && Bads([]) == []
  {
  }

  lemma {:induction false} SameKind(raw: string, i: Item, i': Item)
    requires Counterpart(raw, 0, 0, i, i')
    ensures i.Tok? <==> i'.Tok?
    ensures i.Tok? ==> i == Tok(i.token) && i' == Tok(i'.token) && (i.token.Open? <==> i'.token.Open?)
    ensures i.Bad? ==> i' == i
  {
  }

  /** Reading to the start or end of a token. */
  lemma {:induction false} CutRead(raw: string, p: nat)
    requires p <= |raw| && ((p > 0 && raw[p - 1] == '>') || (p < |raw| && raw[p] == '<'))
    ensures ReadText(raw) == ReadText(raw[..p]) + ReadText(raw[p..])
  {
    hide ReadText;
    assert raw == raw[..p] + raw[p..];
    ReadConcat(raw[..p], raw[p..]);
  }

  lemma {:induction false} ValueRead(raw: string, p: nat, q: nat)
    requires 0 < p <= |raw| && raw[p - 1] == '>' && q < |raw| && raw[q] == '<'
    ensures Slice(ReadText(raw), ReadTo(raw, p), ReadTo(raw, q)) == ReadText(Slice(raw, p, q))
  {
    hide ReadText;
    if p <= q {
      CutRead(raw, p);
      assert raw[p..][..q - p] == raw[p..q] && raw[p..][q - p..] == raw[q..];
      CutRead(raw[p..], q - p);
      assert raw[..q][..p] == raw[..p] && raw[..q][p..] == raw[p..q];
      CutRead(raw[..q], p);
      var a, b, c := ReadText(raw[..p]), ReadText(raw[p..q]), ReadText(raw[q..]);
      assert a + (b + c) == a + b + c;
      assert (a + b + c)[|a|..|a + b|] == b;
    } else {
      assert raw[..p][..q] == raw[..q] && raw[..p][q..] == raw[q..p];
      CutRead(raw[..p], q);
      NothingRead();
    }
  }

  lemma {:induction false} MarkerRead(raw: string, o: Token, o': Token, c: Token, c': Token)
    requires Placed(raw, 0, o) && Placed(raw, 0, c) && o.Open? && c.Close?
    requires Counterpart(raw, 0, 0, Tok(o), Tok(o')) && Counterpart(raw, 0, 0, Tok(c), Tok(c'))
    ensures var m, m' := MarkerOf(raw, o, c), MarkerOf(ReadText(raw), o', c');
      m'.value == ReadText(m.value) && m'.line == m.line
  {
    hide ReadText, ReadTo, Slice;
    ValueRead(raw, o.end, c.start);
  }

  /** When the text pairs up without problems, so does the file, and no value holds a carriage return. */
  lemma {:induction false} PairRead(raw: string, ts: seq<Token>, ts': seq<Token>)
    requires TokensRead(raw, ts, ts') && PairUp(ReadText(raw), ts', None).problems == []
    ensures var f := PairUp(raw, ts, None);
      f.problems == [] && forall i :: 0 <= i < |f.markers| ==> '\r' !in f.markers[i].value
    decreases |ts|
  {
    hide PairUp, Counterpart, Placed, MarkerOf, ReadText;
    if ts == [] {
      NoPairs(raw);
    } else {
      PairUpSound(ReadText(raw), ts');
      assert ts'[0].Open? && !ts'[1].Open?;
      SameKind(raw, Tok(ts[0]), Tok(ts'[0]));
      SameKind(raw, Tok(ts[1]), Tok(ts'[1]));
      PairUpTwo(ReadText(raw), ts');
      PairUpTwo(raw, ts);
      MarkerRead(raw, ts[0], ts'[0], ts[1], ts'[1]);
      var m := MarkerOf(raw, ts[0], ts[1]);
      NewlinesRead(m.value);
      assert TokensRead(raw, ts[2..], ts'[2..]) by {
        assert forall k :: 0 <= k < |ts| - 2 ==> ts[2..][k] == ts[k + 2] && ts'[2..][k] == ts'[k + 2];
      }
      PairRead(raw, ts[2..], ts'[2..]);
      var ms := PairUp(raw, ts[2..], None).markers;
      assert forall i :: 0 < i < |[m] + ms| ==> ([m] + ms)[i] == ms[i - 1];
    }
  }

  lemma {:induction false} NoPairs(raw: string)
    ensures PairUp(raw, [], None) == Found([], [])
  {
  }

  /** A file whose text has no problem has none itself, and its marker values hold no carriage return. */
  lemma {:induction false} SoundRead(raw: string)
    requires Sound(ReadText(raw))
    ensures Sound(raw)
    ensures forall i :: 0 <= i < |FindMarkers(raw).markers| ==> '\r' !in FindMarkers(raw).markers[i].value
  {
    hide Items, Tokens, Bads, PairUp, Placed, Counterpart, ReadText;
    var items, items' := Items(raw, 0, 1, false), Items(ReadText(raw), 0, 1, false);
    ItemsRead(raw, 0, 0, 1, false);
    forall k | 0 <= k < |items| && items[k].Tok? ensures Placed(raw, 0, items[k].token) {
      ItemsPlaced(raw, 0, 1, false, k);
    }
    TokensReadFrom(raw, items, items');
    PairRead(raw, Tokens(items), Tokens(items'));
  }
}
