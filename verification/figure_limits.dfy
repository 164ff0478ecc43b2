/** Where the promises of `--write` stop: values that span a line boundary other than a newline, and
    carriage returns on disk. */
module FigureLimits {
  import opened Wrappers
  import opened FigureMarkers
  import opened FigureScan
  import opened FigureRewrite
  import opened RenderFigures
  import opened FigureTaken
  import opened FigureShape
  import opened FigureFound
  import opened FigureFixpoint
  import opened FigureReturns

  const OPENING: string := "<!-- fig:typed_actions -->"

  const SECOND: string := "<!-- fig:stories_total -->"

  const CLOSING: string := "<!-- /fig -->"

  /** Two markers on two lines that a form feed separates: the first holds the form feed, the second is
      documentation of the syntax, in inline code. */
  const SPLIT: string := "`" + OPENING + "\U{0C}" + CLOSING + "` " + SECOND + "7" + CLOSING + "`"

  /** The same text with "5" for the form feed: now the first marker is in inline code, and the second
      one is not. */
  const JOINED: string := "`" + OPENING + "5" + CLOSING + "` " + SECOND + "7" + CLOSING + "`"

  /** And with the second marker brought up to date. */
  const AGAIN: string := "`" + OPENING + "5" + CLOSING + "` " + SECOND + "5" + CLOSING + "`"

  lemma {:induction false} FirstLineLen(a: string, c: char, b: string)
    requires NoBreak(a) && IsBreak(c) && c != '\r'
    ensures LineLen(a + [c] + b) == |a| + 1
  {
    var t := a + [c] + b;
    if a == "" {
      assert t[0] == c;
    } else {
      assert t[0] == a[0] && t[1..] == a[1..] + [c] + b;
      FirstLineLen(a[1..], c, b);
    }
  }

  lemma {:induction false} ClosingShape(tail: string)
    ensures var u := CLOSING + tail; KeywordLen(u) != 0 && Classify(u) == CloseShape(13)
  {
    hide KeywordLen, Classify;
    assert Blank(" ");
    assert CLOSING == "<!--" + " " + "/fig" + " " + "-->";
    ClosesRecognised(CLOSING, tail);
    assert |CLOSING| == 13;
  }

  lemma {:induction false} OpeningShape(c: string, name: string, tail: string)
    requires PlainName(name) && c == "<!--" + " " + "fig" + "" + (":" + name) + " " + "-->"
    ensures KeywordLen(c + tail) != 0 && Classify(c + tail) == OpenShape(OpenRest(name, None), |c|)
  {
    hide KeywordLen, Classify, PlainName;
    assert Blank(" ") && Blank("");
    assert FigureText(":" + name, name, None);
    OpensRecognised(c, tail, name, None);
  }

  /** A token at the front of a text in which no other marker can start. */
  lemma {:induction false} ScanOne(u: string, n: nat, odd: bool, at: nat, lineno: nat)
    requires 0 < n <= |u| && KeywordLen(u) != 0 && !(odd && '`' in u)
    requires forall i :: 0 < i < n ==> u[i] != '<'
    ensures Scan(u, n, odd, at, lineno) == [ItemAt(u, at, lineno)]
  {
    hide KeywordLen, Classify, Scan;
    ScanUnfold(u, n, odd, at, lineno);
    ScanNoAngle(u[1..], n - 1, odd != (u[0] == '`'), at + 1, lineno);
  }

  lemma {:induction false} NoKeywordAt(line: string)
    requires line != "" && line[0] != '<'
    ensures forall odd: bool, at: nat, lineno: nat :: Here(line, odd, at, lineno) == []
  {
    hide Classify;
  }

  /** A character that starts nothing. */
  lemma {:induction false} ScanPast(u: string, n: nat, odd: bool, at: nat, lineno: nat)
    requires 0 < n <= |u| && u[0] != '<'
    ensures Scan(u, n, odd, at, lineno) == Scan(u[1..], n - 1, odd != (u[0] == '`'), at + 1, lineno)
  {
    hide Here, Scan;
    ScanUnfold(u, n, odd, at, lineno);
    NoKeywordAt(u);
    var rest := Scan(u[1..], n - 1, odd != (u[0] == '`'), at + 1, lineno);
    assert [] + rest == rest;
  }

  /** Nothing starts inside an unclosed span when another backtick follows. */
  lemma {:induction false} ScanInCode(u: string, n: nat, at: nat, lineno: nat)
    requires n < |u| && u[|u| - 1] == '`' && forall i :: 0 <= i < n ==> u[i] != '`'
    ensures Scan(u, n, true, at, lineno) == []
  {
    hide KeywordLen, Classify;
    if n > 0 {
      assert Here(u, true, at, lineno) == [];
      ScanInCode(u[1..], n - 1, at + 1, lineno);
    }
  }

  lemma {:induction false} TwoTokens(a: Token, b: Token)
    ensures Tokens([Tok(a), Tok(b)]) == [a, b] && Bads([Tok(a), Tok(b)]) == []
  {
    var one: seq<Item>, two: seq<Item> := [Tok(b)], [Tok(a), Tok(b)];
    assert one[1..] == [] && two[1..] == one;
    assert Tokens(one) == [b] && Bads(one) == [];
  }


  // ----- the first scan -----

  /** The second line behind its closing comment: the second marker is in inline code. */
  const DOCUMENTED: string := "` " + SECOND + "7" + CLOSING + "`"

  lemma {:induction false} SplitLineItems()
    ensures LineItems("`" + OPENING + "\U{0C}", 0, 1, false) == [Tok(Open("typed_actions", None, 1, 27, 1))]
    ensures !IsFence("`" + OPENING + "\U{0C}")
  {
    hide Scan, KeywordLen, Classify, OPENING, IsFence;
    PieceFacts();
    var line, u := "`" + OPENING + "\U{0C}", OPENING + "\U{0C}";
    OneTickNoFence(u);
    assert line == "`" + u && line[1..] == u && |line| == 28;
    ScanPast(line, 28, false, 0, 1);
    OpeningIsFirst("\U{0C}");
    FrontAlone("\U{0C}");
    ScanOne(u, 27, true, 1, 1);
  }

  lemma {:induction false} FrontAlone(tail: string)
    requires '<' !in tail && '`' !in tail
    ensures var u := OPENING + tail; '`' !in u && forall i :: 0 < i < |u| ==> u[i] != '<'
  {
    assert forall i :: 0 < i < 26 ==> OPENING[i] != '<';
    assert '`' !in OPENING;
  }

  lemma {:induction false} OpeningIsFirst(tail: string)
    ensures var u := OPENING + tail;
      KeywordLen(u) != 0 && Classify(u) == OpenShape(OpenRest("typed_actions", None), 26)
  {
    hide KeywordLen, Classify;
    var name := "typed_actions";
    assert OPENING == "<!--" + " " + "fig" + "" + (":" + name) + " " + "-->";
    OpeningShape(OPENING, name, tail);
    assert |OPENING| == 26;
  }

  lemma {:induction false} SecondIsOther(tail: string)
    ensures var u := SECOND + tail;
      KeywordLen(u) != 0 && Classify(u) == OpenShape(OpenRest("stories_total", None), 26)
  {
    hide KeywordLen, Classify;
    var name := "stories_total";
    assert SECOND == "<!--" + " " + "fig" + "" + (":" + name) + " " + "-->";
    OpeningShape(SECOND, name, tail);
    assert |SECOND| == 26;
  }

  /** The documented marker, scanned from outside inline code, gives nothing. */
  lemma {:induction false} DocumentedScan(at: nat, lineno: nat)
    ensures |DOCUMENTED| == 43 && Scan(DOCUMENTED, 43, false, at, lineno) == []
  {
    hide Scan;
    var u := DOCUMENTED;
    assert u[0] == '`';
    ScanPast(u, 43, false, at, lineno);
    var w := u[1..];
    assert forall i :: 0 <= i < 41 ==> w[i] != '`';
    assert w[41] == '`';
    ScanSplit(w, 41, 1, true, at + 1, lineno);
    ScanInCode(w, 41, at + 1, lineno);
    ScanNoAngle(w[41..], 1, true != OddTicks(w[..41]), at + 42, lineno);
  }

  lemma {:induction false} CloseLineItems()
    ensures LineItems(CLOSING + DOCUMENTED, 28, 2, false) == [Tok(Close(28, 41, 2))]
  {
    hide Scan, KeywordLen, Classify, OddTicks;
    var line := CLOSING + DOCUMENTED;
    SkipAt(line, 0, 0);
    assert !At(line, 0, "```") && !At(line, 0, "~~~") by { assert line[0] == '<'; }
    ClosingShape(DOCUMENTED);
    assert forall i :: 0 < i < 13 ==> line[i] != '<';
    assert line[13..] == DOCUMENTED && line[..13] == CLOSING;
    NoTicks(CLOSING);
    DocumentedScan(41, 2);
    ScanSplit(line, 13, 43, false, 28, 2);
    ScanOne(line, 13, false, 28, 2);
    assert [Tok(Close(28, 41, 2))] + [] == [Tok(Close(28, 41, 2))];
  }

  lemma {:induction false} SecondItems()
    ensures Items(CLOSING + DOCUMENTED, 28, 2, false) == [Tok(Close(28, 41, 2))]
  {
    hide LineItems, IsFence, LineLen, Items, NoBreak, OPENING, SECOND, CLOSING;
    PieceFacts();
    MarkUnbroken();
    UnbrokenJoin("` ", SECOND);
    UnbrokenJoin("` " + SECOND, "7");
    UnbrokenJoin("` " + SECOND + "7", CLOSING);
    UnbrokenJoin("` " + SECOND + "7" + CLOSING, "`");
    UnbrokenJoin(CLOSING, DOCUMENTED);
    CloseLineItems();
    var second := CLOSING + DOCUMENTED;
    OnlyLine(second);
    assert |second| == 56;
    assert second[..56] == second && second[56..] == "";
    ItemsUnfold(second, 28, 2, false);
    EmptyItems(84, 3, false != IsFence(second));
    assert [Tok(Close(28, 41, 2))] + [] == [Tok(Close(28, 41, 2))];
  }

  lemma {:induction false} SplitItems()
    ensures Items(SPLIT, 0, 1, false) == [Tok(Open("typed_actions", None, 1, 27, 1)), Tok(Close(28, 41, 2))]
  {
    hide LineItems, IsFence, LineLen, Items, NoBreak, OPENING, SECOND, CLOSING;
    PieceFacts();
    MarkUnbroken();
    UnbrokenJoin("`", OPENING);
    var front, second := "`" + OPENING, CLOSING + DOCUMENTED;
    assert SPLIT == front + ['\U{0C}'] + second;
    FirstLineLen(front, '\U{0C}', second);
    assert SPLIT[..28] == front + "\U{0C}" && SPLIT[28..] == second;
    SplitLineItems();
    ItemsUnfold(SPLIT, 0, 1, false);
    SecondItems();
    var a, b := Tok(Open("typed_actions", None, 1, 27, 1)), Tok(Close(28, 41, 2));
    assert [a] + [b] == [a, b];
  }

  /** A text whose items are one opening and one closing token, with a one-character value. */
  lemma {:induction false} OneMarker(text: string, a: Token, b: Token)
    requires Items(text, 0, 1, false) == [Tok(a), Tok(b)] && a.Open? && b.Close?
    requires a.end + 1 == b.start <= |text| && text[a.end] != '\n'
    ensures FindMarkers(text) == Found([MarkerOf(text, a, b)], []) && MarkerOf(text, a, b).value == [text[a.end]]
  {
    hide Items;
    TwoTokens(a, b);
    assert [a, b][2..] == [];
    assert text[a.end..b.start] == [text[a.end]];
    PairUpTwo(text, [a, b]);
  }

  const FIRST_MARKER: Marker := Marker("typed_actions", None, 1, 41, 27, 28, 1, "\U{0C}")

  const SECOND_MARKER: Marker := Marker("stories_total", None, 43, 83, 69, 70, 1, "7")

  /** The first scan finds the first marker only. */
  lemma {:induction false} SplitFound()
    ensures FindMarkers(SPLIT) == Found([FIRST_MARKER], [])
  {
    hide Items, FindMarkers, SPLIT;
    SplitItems();
    Rewrites();
    OneMarker(SPLIT, Open("typed_actions", None, 1, 27, 1), Close(28, 41, 2));
    assert ['\U{0C}'] == "\U{0C}";
  }

  // ----- the second scan -----

  lemma {:induction false} SecondAlone()
    ensures |SECOND| == 26 && |CLOSING| == 13
    ensures forall i :: 0 < i < 26 ==> SECOND[i] != '<' && SECOND[i] != '`'
    ensures SECOND[0] == '<' && '`' !in SECOND && forall i :: 0 < i < 13 ==> CLOSING[i] != '<'
  {
    assert '`' !in SECOND;
  }

  lemma {:induction false} RevealedScan()
    ensures var u := " " + SECOND + "7" + CLOSING + "`";
      |u| == 42 && Scan(u, 42, false, 42, 1) == [Tok(Open("stories_total", None, 43, 69, 1)), Tok(Close(70, 83, 1))]
  {
    hide Scan, KeywordLen, Classify, OddTicks, SECOND, CLOSING;
    SecondAlone();
    var u := " " + SECOND + "7" + CLOSING + "`";
    var v, c := "7" + CLOSING + "`", CLOSING + "`";
    var w := SECOND + v;
    assert u[0] == ' ' && u[1..] == w;
    ScanPast(u, 42, false, 42, 1);
    assert w[27..] == c && w[..27] == SECOND + "7";
    assert forall i :: 0 < i < 26 ==> w[i] == SECOND[i];
    assert w[26] == '7';
    assert '`' !in "7";
    NoTicks(w[..27]);
    ScanSplit(w, 27, 14, false, 43, 1);
    SecondIsOther(v);
    ScanOne(w, 27, false, 43, 1);
    ClosingShape("`");
    assert forall i :: 0 < i < 13 ==> c[i] == CLOSING[i];
    ScanOne(c, 14, false, 70, 1);
    var a, b := Tok(Open("stories_total", None, 43, 69, 1)), Tok(Close(70, 83, 1));
    assert [a] + [b] == [a, b];
  }

  /** Behind a backtick that a later one closes, the scan goes on from the later one. */
  lemma {:induction false} CodeThen(v: string, w: string, at: nat, lineno: nat)
    requires '`' !in v && |w| > 1 && w[0] == '`' && w[|w| - 1] == '`'
    ensures Scan("`" + v + w, 1 + |v| + |w|, false, at, lineno) == Scan(w[1..], |w| - 1, false, at + 2 + |v|, lineno)
  {
    hide Scan, OddTicks;
    var t, u := "`" + v + w, v + w;
    assert t[0] == '`' && t[1..] == u;
    ScanPast(t, 1 + |v| + |w|, false, at, lineno);
    assert u[|v|..] == w && u[..|v|] == v && u[|u| - 1] == '`';
    assert forall i :: 0 <= i < |v| ==> u[i] == v[i];
    NoTicks(v);
    ScanSplit(u, |v|, |w|, true, at + 1, lineno);
    ScanInCode(u, |v|, at + 1, lineno);
    ScanPast(w, |w|, true, at + 1 + |v|, lineno);
    var rest := Scan(w[1..], |w| - 1, false, at + 2 + |v|, lineno);
    assert [] + rest == rest;
  }

  lemma {:induction false} JoinedScan()
    ensures |JOINED| == 84 &&
      Scan(JOINED, 84, false, 0, 1) == [Tok(Open("stories_total", None, 43, 69, 1)), Tok(Close(70, 83, 1))]
  {
    hide Scan, OddTicks, OPENING, SECOND, CLOSING;
    PieceFacts();
    var v, w := OPENING + "5" + CLOSING, "` " + SECOND + "7" + CLOSING + "`";
    assert JOINED == "`" + v + w && |v| == 40 && |w| == 43;
    CodeThen(v, w, 0, 1);
    assert w[1..] == " " + SECOND + "7" + CLOSING + "`";
    RevealedScan();
  }

  lemma {:induction false} JoinedItems()
    ensures LineItems(JOINED, 0, 1, false) == [Tok(Open("stories_total", None, 43, 69, 1)), Tok(Close(70, 83, 1))]
  {
    hide Scan, JOINED, IsFence;
    JoinedScan();
    JoinedPlain();
  }

  /** After the rewrite the first marker is in inline code, and the second one is found. */
  lemma {:induction false} JoinedFound()
    ensures FindMarkers(JOINED) == Found([SECOND_MARKER], [])
  {
    hide LineItems, LineLen, Items, FindMarkers, JOINED;
    JoinedItems();
    JoinedPlain();
    OnlyLine(JOINED);
    Rewrites();
    assert JOINED[..84] == JOINED && JOINED[84..] == "";
    EmptyItems(84, 2, false);
    ItemsUnfold(JOINED, 0, 1, false);
    var a, b := Open("stories_total", None, 43, 69, 1), Close(70, 83, 1);
    assert [Tok(a), Tok(b)] + [] == [Tok(a), Tok(b)];
    Rewrites();
    OneMarker(JOINED, a, b);
    assert ['7'] == "7";
  }

  lemma {:induction false} JoinedPlain()
    ensures NoBreak(JOINED) && !IsFence(JOINED)
  {
    hide OPENING, SECOND, CLOSING, NoBreak, IsFence;
    PieceFacts();
    MarkUnbroken();
    UnbrokenJoin("`", OPENING);
    UnbrokenJoin("`" + OPENING, "5");
    UnbrokenJoin("`" + OPENING + "5", CLOSING);
    UnbrokenJoin("`" + OPENING + "5" + CLOSING, "` ");
    UnbrokenJoin("`" + OPENING + "5" + CLOSING + "` ", SECOND);
    UnbrokenJoin("`" + OPENING + "5" + CLOSING + "` " + SECOND, "7");
    UnbrokenJoin("`" + OPENING + "5" + CLOSING + "` " + SECOND + "7", CLOSING);
    UnbrokenJoin("`" + OPENING + "5" + CLOSING + "` " + SECOND + "7" + CLOSING, "`");
    OneTickNoFence(OPENING + "5" + CLOSING + "` " + SECOND + "7" + CLOSING + "`");
    assert JOINED == "`" + (OPENING + "5" + CLOSING + "` " + SECOND + "7" + CLOSING + "`");
  }

  lemma {:induction false} MarkUnbroken()
    ensures NoBreak("`") && NoBreak("5") && NoBreak("7") && NoBreak("` ")
  {
  }

  lemma {:induction false} OneTickNoFence(rest: string)
    requires rest != "" && rest[0] == '<'
    ensures !IsFence("`" + rest)
  {
    var t := "`" + rest;
    SkipAt(t, 0, 0);
    assert t[1] == '<';
    assert !At(t, 0, "```") && !At(t, 0, "~~~");
  }

  /** What the proofs below use of the three comments. */
  lemma {:induction false} PieceFacts()
    ensures |OPENING| == 26 && |SECOND| == 26 && |CLOSING| == 13 && OPENING[0] == '<'
    ensures '`' !in OPENING + "5" + CLOSING
    ensures NoBreak(OPENING) && NoBreak(SECOND) && NoBreak(CLOSING)
    ensures '\r' !in OPENING && '\r' !in SECOND && '\r' !in CLOSING
  {
    CommentPlain(OPENING);
    CommentPlain(SECOND);
    CommentPlain(CLOSING);
    assert '`' !in OPENING && '`' !in CLOSING && '`' !in "5";
  }

  lemma {:induction false} CommentPlain(s: string)
    requires forall i :: 0 <= i < |s| ==> ' ' <= s[i] <= '~'
    ensures NoBreak(s) && '\r' !in s
  {
  }

  // ----- the two runs -----

  /** Both figures count five; no other name is asked for. */
  ghost function FiveReader(): string -> Reading {
    (name: string) => if name == "typed_actions" || name == "stories_total" then Known(Count(5)) else UnknownName
  }

  lemma {:induction false} RenderFive()
    ensures Render(Count(5), None) == Ok("5")
  {
  }

  lemma {:induction false} NoReturns()
    ensures ReadText(SPLIT) == SPLIT && ReadText(JOINED) == JOINED
  {
    hide ReadText, OPENING, SECOND, CLOSING;
    PieceFacts();
    var tail := CLOSING + "` " + SECOND + "7" + CLOSING + "`";
    assert '\r' !in tail;
    assert '\r' !in SPLIT by { assert SPLIT == "`" + OPENING + "\U{0C}" + tail; }
    assert '\r' !in JOINED by { assert JOINED == "`" + OPENING + "5" + tail; }
    ReadTextExact(SPLIT);
    ReadTextExact(JOINED);
  }

  /** A file with one marker whose one-character value is out of date. */
  lemma {:induction false} StaleFile(rel: string, raw: string, text: string, m: Marker, text': string)
    requires FindMarkers(text) == Found([m], []) && ReadText(raw) == text && m.floor == None
    requires m.name == "typed_actions" || m.name == "stories_total"
    requires m.valueEnd == m.valueStart + 1 <= |text| && m.value == [text[m.valueStart]] && text[m.valueStart] != '5'
    requires text' == text[..m.valueStart] + "5" + text[m.valueEnd..]
    ensures CheckFile(rel, raw, FiveReader()) ==
      Some(Report([], [Stale(rel, m.line, m.name, m.value, "5")], 1, map[rel := text']))
  {
    hide FindMarkers, ReadText, Render;
    RenderFive();
    assert Judge(rel, m, FiveReader()) == Rendered("5");
    assert m.value[0] != "5"[0];
    assert [m][1..] == [];
    assert text[m.valueEnd..|text|] == text[m.valueEnd..];
    assert PassFrom(rel, text, m.valueEnd, [], FiveReader()) == Some(FilePass([], [], text[m.valueEnd..]));
    assert text[0..m.valueStart] == text[..m.valueStart];
    var stale := [Stale(rel, m.line, m.name, m.value, "5")];
    assert stale + [] == stale;
    assert text'[m.valueStart] == '5';
    FloorsPositive(text);
    assert Structurals(rel, []) + [] == [];
  }

  lemma {:induction false} BothChecks(rel: string)
    ensures CheckFile(rel, SPLIT, FiveReader()) ==
      Some(Report([], [Stale(rel, 1, "typed_actions", "\U{0C}", "5")], 1, map[rel := JOINED]))
    ensures CheckFile(rel, JOINED, FiveReader()) ==
      Some(Report([], [Stale(rel, 1, "stories_total", "7", "5")], 1, map[rel := AGAIN]))
  {
    hide FindMarkers, ReadText, CheckFile;
    NoReturns();
    SplitFound();
    JoinedFound();
    Rewrites();
    StaleFile(rel, SPLIT, SPLIT, FIRST_MARKER, JOINED);
    StaleFile(rel, JOINED, JOINED, SECOND_MARKER, AGAIN);
  }

  lemma {:induction false} Rewrites()
    ensures |SPLIT| == |JOINED| == |AGAIN| == 84 && SPLIT[27] == '\U{0C}' && JOINED[69] == '7' && AGAIN[69] == '5'
    ensures JOINED == SPLIT[..27] + "5" + SPLIT[28..] && AGAIN == JOINED[..69] + "5" + JOINED[70..]
  {
    hide OPENING, SECOND, CLOSING;
    PieceFacts();
    var front, back := "`" + OPENING, CLOSING + "` " + SECOND + "7" + CLOSING + "`";
    assert SPLIT == front + ['\U{0C}'] + back && JOINED == front + ['5'] + back;
    OneChanged(front, '\U{0C}', '5', back);
    var front', back' := "`" + OPENING + "5" + CLOSING + "` " + SECOND, CLOSING + "`";
    assert JOINED == front' + ['7'] + back' && AGAIN == front' + ['5'] + back';
    OneChanged(front', '7', '5', back');
  }

  lemma {:induction false} OneChanged(front: string, a: char, b: char, back: string)
    ensures var t, u := front + [a] + back, front + [b] + back;
      |t| == |u| == |front| + 1 + |back| && t[|front|] == a && u[|front|] == b &&
      u == t[..|front|] + [b] + t[|front| + 1..]
  {
    var t := front + [a] + back;
    assert t[..|front|] == front && t[|front| + 1..] == back;
  }

  lemma {:induction false} CheckSingle(rel: string, raw: string, r: Report)
    requires CheckFile(rel, raw, FiveReader()) == Some(r)
    ensures Check([rel], map[rel := raw], FiveReader()) == Some(r)
  {
    hide CheckFile;
    assert [rel][1..] == [];
    assert r.problems + [] == r.problems && r.stale + [] == r.stale && r.rewrites + map[] == r.rewrites;
  }

  /** One run over a single file with one stale marker. */
  lemma {:induction false} RunSingle(rel: string, raw: string, stale: Stale, raw': string)
    requires CheckFile(rel, raw, FiveReader()) == Some(Report([], [stale], 1, map[rel := raw']))
    ensures RunOutcome([rel], map[rel := raw], FiveReader(), true) == Finished([], [stale], 1, 1)
    ensures RunFiles([rel], map[rel := raw], FiveReader(), true) == map[rel := raw']
  {
    hide CheckFile, Check;
    CheckSingle(rel, raw, Report([], [stale], 1, map[rel := raw']));
    assert map[rel := raw] + map[rel := raw'] == map[rel := raw'];
    assert |map[rel := raw']| == 1;
  }

  /** A `--write` run without problems need not be a fixed point when a stored value holds a line boundary
      that is not a newline: here the next run, without problems too, finds another marker and rewrites
      the file again. */
  lemma {:induction false} FormFeedValueBreaksIt()
    ensures exists claims: seq<string>, files: map<string, string>, reader: string -> Reading ::
      Distinct(claims) && TidyReader(reader) &&
      RunOutcome(claims, files, reader, true) ==
        Finished([], [Stale("README.md", 1, "typed_actions", "\U{0C}", "5")], 1, 1) &&
      var files' := RunFiles(claims, files, reader, true);
      RunOutcome(claims, files', reader, true) ==
        Finished([], [Stale("README.md", 1, "stories_total", "7", "5")], 1, 1) &&
      RunFiles(claims, files', reader, true) != files'
  {
    hide CheckFile, SPLIT, JOINED, AGAIN, Check, RunOutcome, RunFiles;
    var rel := "README.md";
    var claims, files, reader := [rel], map[rel := SPLIT], FiveReader();
    BothChecks(rel);
    RunSingle(rel, SPLIT, Stale(rel, 1, "typed_actions", "\U{0C}", "5"), JOINED);
    RunSingle(rel, JOINED, Stale(rel, 1, "stories_total", "7", "5"), AGAIN);
    Rewrites();
    assert map[rel := JOINED][rel] != map[rel := AGAIN][rel];
    assert RunFiles(claims, files, reader, true) == map[rel := JOINED];
    assert TidyReader(reader);
    assert Distinct(claims);
  }

  // ----- carriage returns -----

  /** A rewritten file is the text read with new values, and holds no carriage return; so where the file had
      one, something outside the values has changed. */
  lemma {:induction false} ReturnsAreLost(rel: string, raw: string, reader: string -> Reading)
    requires CheckFile(rel, raw, reader).Some? && CheckFile(rel, raw, reader).value.problems == []
    requires TidyReader(reader) && rel in CheckFile(rel, raw, reader).value.rewrites
    ensures var raw' := FigureFixpoint.Result(raw, rel, CheckFile(rel, raw, reader).value);
      '\r' !in raw' && OnlyValuesWritten(raw, raw') &&
      ('\r' in raw ==> !SameOutside(raw, FindMarkers(raw).markers, raw', FindMarkers(raw').markers))
  {
    hide FindMarkers, Weave, ReadText, AllRender, TidyReader, CheckFile, OnlyValuesWritten, Sound, SameOutside;
    CheckFileParts(rel, raw, reader);
    FileWritten(rel, raw, reader);
    var text := ReadText(raw);
    var ms := FindMarkers(text).markers;
    RenderingsClean(rel, ms, reader);
    CleanNoReturn(Renderings(rel, ms, reader));
    ReadTextExact(raw);
    WeaveNoReturn(text, 0, ValueSpans(ms), Renderings(rel, ms, reader));
    var raw' := FigureFixpoint.Result(raw, rel, CheckFile(rel, raw, reader).value);
    if SameOutside(raw, FindMarkers(raw).markers, raw', FindMarkers(raw').markers) {
      NoReturnOutside(raw, raw');
    }
  }

  /** With a text of no carriage return around it, a file whose values hold none holds none. */
  lemma {:induction false} NoReturnOutside(raw: string, raw': string)
    requires Sound(ReadText(raw)) && '\r' !in raw'
    requires SameOutside(raw, FindMarkers(raw).markers, raw', FindMarkers(raw').markers)
    ensures '\r' !in raw
  {
    hide FindMarkers, Weave, ReadText, Sound, SameOutside;
    var ms, ms' := FindMarkers(raw).markers, FindMarkers(raw').markers;
    SoundRead(raw);
    RewriteIdentity(raw);
    SameWeave(raw, ms, raw', ms', Values(ms));
    WeaveNoReturn(raw', 0, ValueSpans(ms'), Values(ms));
  }

  /** Without carriage returns, and where the comments keep their inline code, the bytes on disk outside the
      values are those that were there. */
  lemma {:induction false} SameOnDisk(rel: string, raw: string, reader: string -> Reading)
    requires CheckFile(rel, raw, reader).Some? && CheckFile(rel, raw, reader).value.problems == []
    requires TidyReader(reader) && SameCode(ReadText(raw)) && '\r' !in raw
    ensures var raw' := FigureFixpoint.Result(raw, rel, CheckFile(rel, raw, reader).value);
      '\r' !in raw' && SameOutside(raw, FindMarkers(raw).markers, raw', FindMarkers(raw').markers)
  {
    hide FindMarkers, Weave, ReadText, AllRender, TidyReader, SameOutside, SameFigures, SameCode, CheckFile;
    CheckFileParts(rel, raw, reader);
    var text := ReadText(raw);
    var ms := FindMarkers(text).markers;
    RenderingsClean(rel, ms, reader);
    CleanNoReturn(Renderings(rel, ms, reader));
    ReadTextExact(raw);
    WeaveNoReturn(text, 0, ValueSpans(ms), Renderings(rel, ms, reader));
    ReadTextExact(FigureFixpoint.Result(raw, rel, CheckFile(rel, raw, reader).value));
    FileFixpoint(rel, raw, reader);
  }

  /** When a file is rewritten, and its comments keep their inline code, everything outside the values
      survives on disk exactly when the file held no carriage return. */
  lemma {:induction false} SurvivesIff(rel: string, raw: string, reader: string -> Reading)
    requires CheckFile(rel, raw, reader).Some? && CheckFile(rel, raw, reader).value.problems == []
    requires TidyReader(reader) && rel in CheckFile(rel, raw, reader).value.rewrites && SameCode(ReadText(raw))
    ensures var raw' := FigureFixpoint.Result(raw, rel, CheckFile(rel, raw, reader).value);
      SameOutside(raw, FindMarkers(raw).markers, raw', FindMarkers(raw').markers) <==> '\r' !in raw
  {
    hide FindMarkers, ReadText, TidyReader, SameOutside, SameCode, CheckFile, OnlyValuesWritten;
    ReturnsAreLost(rel, raw, reader);
    if '\r' !in raw {
      SameOnDisk(rel, raw, reader);
    }
  }

  /** A run over a file whose only line ends in a carriage return and a newline: the value is brought up to
      date, and the carriage return is gone. */
  lemma {:induction false} ReturnLost()
    ensures exists claims: seq<string>, files: map<string, string>, reader: string -> Reading ::
      Distinct(claims) && TidyReader(reader) && files == map["README.md" := JOINED + "\r\n"] &&
      RunOutcome(claims, files, reader, true) == Finished([], [Stale("README.md", 1, "stories_total", "7", "5")], 1, 1)
      && RunFiles(claims, files, reader, true) == map["README.md" := AGAIN + "\n"]
  {
    hide CheckFile, JOINED, AGAIN, Check, RunOutcome, RunFiles, FindMarkers, ReadText;
    var rel, raw := "README.md", JOINED + "\r\n";
    var claims, files, reader := [rel], map[rel := raw], FiveReader();
    ReturnRead();
    Rewrites();
    var text, text' := JOINED + "\n", AGAIN + "\n";
    assert text' == text[..69] + "5" + text[70..];
    assert text[69] == '7';
    assert [text[69]] == "7";
    StaleFile(rel, raw, text, SECOND_MARKER, text');
    RunSingle(rel, raw, Stale(rel, 1, "stories_total", "7", "5"), text');
    assert TidyReader(reader);
    assert Distinct(claims);
  }

  lemma {:induction false} ReturnRead()
    ensures ReadText(JOINED + "\r\n") == JOINED + "\n"
    ensures FindMarkers(JOINED + "\n") == Found([SECOND_MARKER], [])
  {
    hide JOINED, Items, FindMarkers, LineItems, LineLen, IsFence;
    NoReturns();
    ReadTextExact(JOINED);
    ReadPlain(JOINED, "\r\n");
    assert ReadText("\r\n") == "\n";
    JoinedItems();
    hide ReadText;
    JoinedPlain();
    Rewrites();
    var text := JOINED + "\n";
    FirstLineLen(JOINED, '\n', "");
    assert JOINED + ['\n'] + "" == text && text[..85] == text && text[85..] == "";
    ItemsUnfold(text, 0, 1, false);
    LineItemsEnding(JOINED, "\n", 0, 1, false);
    var a, b := Open("stories_total", None, 43, 69, 1), Close(70, 83, 1);
    EmptyItems(85, 2, false != IsFence(text));
    assert [Tok(a), Tok(b)] + [] == [Tok(a), Tok(b)];
    assert text[69] == '7';
    OneMarker(text, a, b);
    assert ['7'] == "7";
  }
}
