/** Text made safe to print above an approval prompt: one line, a bounded block, a full block. */
module OperatorText {
  import opened Decimal
  import TextLines

  // ----- character classes -----

  /** Characters that collapse to a single space. */
  predicate IsBlank(c: char) {
    c == '\t' || c == '\n' || c == '\r' || c == ' '
  }

  /** Characters that are dropped. */
  predicate IsDropped(c: char) {
    && !IsBlank(c)
    && (|| c < ' ' || c == '\U{7F}'
        || '\U{80}' <= c <= '\U{9F}'
        || '\U{2028}' <= c <= '\U{202E}' || '\U{2066}' <= c <= '\U{2069}'
        || '\U{200B}' <= c <= '\U{200F}' || c == '\U{FEFF}'
        || c == '\U{61C}'
        || c == '\U{AD}' || c == '\U{34F}' || '\U{180B}' <= c <= '\U{180E}'
        || '\U{2060}' <= c <= '\U{2064}' || '\U{206A}' <= c <= '\U{206F}'
        || '\U{FFF9}' <= c <= '\U{FFFB}' || '\U{E0000}' <= c <= '\U{E007F}')
  }

  /** Unicode white space, as `trim_start` sees it. */
  predicate IsWhite(c: char) {
    || '\t' <= c <= '\r' || c == ' ' || c == '\U{85}' || c == '\U{A0}' || c == '\U{1680}'
    || '\U{2000}' <= c <= '\U{200A}' || c == '\U{2028}' || c == '\U{2029}' || c == '\U{202F}'
    || c == '\U{205F}' || c == '\U{3000}'
  }

  // ----- the declarative reading -----

  /** The text without the dropped characters. */
  function Filtered(s: string): string {
    if s == "" then "" else Filtered(s[..|s| - 1]) + (if IsDropped(s[|s| - 1]) then "" else [s[|s| - 1]])
  }

  /** Length of the run of non-blank characters at the front. */
  function WordLen(f: string): (n: nat)
    ensures n <= |f|
    ensures f != "" && !IsBlank(f[0]) ==> n > 0
    ensures forall i :: 0 <= i < n ==> !IsBlank(f[i])
    ensures n < |f| ==> IsBlank(f[n])
  {
    if f == "" || IsBlank(f[0]) then 0 else 1 + WordLen(f[1..])
  }

  /** Split on runs of blanks. */
  function Words(f: string): seq<string> {
    if f == "" then []
    else if IsBlank(f[0]) then Words(f[1..])
    else [f[..WordLen(f)]] + Words(f[WordLen(f)..])
  }

  /** Join with one space. */
  function Join(ws: seq<string>): string {
    if ws == [] then "" else if |ws| == 1 then ws[0] else Join(ws[..|ws| - 1]) + " " + ws[|ws| - 1]
  }

  /** Delete the dropped classes, split on runs of blanks, join with one space. */
  function Neutral(s: string): string {
    Join(Words(Filtered(s)))
  }

  // ----- reading one more character -----

  ghost predicate EndsWord(f: string) {
    f != "" && !IsBlank(f[|f| - 1])
  }

  lemma {:induction false} WordLenSnoc(f: string, c: char)
    ensures WordLen(f + [c]) == if WordLen(f) == |f| && !IsBlank(c) then |f| + 1 else WordLen(f)
  {
    hide IsBlank;
    if f == "" {
      assert (f + [c])[1..] == "";
    } else if !IsBlank(f[0]) {
      assert (f + [c])[1..] == f[1..] + [c];
      WordLenSnoc(f[1..], c);
    }
  }

  lemma {:induction false} WordsBlank(f: string, c: char)
    requires IsBlank(c)
    ensures Words(f + [c]) == Words(f)
    decreases |f|
  {
    hide IsBlank;
    var g := f + [c];
    if f == "" {
      assert g[1..] == "";
    } else if IsBlank(f[0]) {
      assert g[1..] == f[1..] + [c];
      WordsBlank(f[1..], c);
    } else {
      var n := WordLen(f);
      WordLenSnoc(f, c);
      assert g[..n] == f[..n] && g[n..] == f[n..] + [c];
      WordsBlank(f[n..], c);
    }
  }

  lemma {:induction false} WordsNew(f: string, c: char)
    requires !IsBlank(c) && !EndsWord(f)
    ensures Words(f + [c]) == Words(f) + [[c]]
    decreases |f|
  {
    hide IsBlank;
    var g := f + [c];
    if f == "" {
      assert g[1..] == "";
      assert WordLen(g) == 1;
      assert g[..1] == [c] && g[1..] == "";
    } else if IsBlank(f[0]) {
      assert g[1..] == f[1..] + [c];
      WordsNew(f[1..], c);
    } else {
      var n := WordLen(f);
      WordLenSnoc(f, c);
      assert n < |f|;
      assert g[..n] == f[..n] && g[n..] == f[n..] + [c];
      WordsNew(f[n..], c);
      assert [f[..n]] + (Words(f[n..]) + [[c]]) == [f[..n]] + Words(f[n..]) + [[c]];
    }
  }

  lemma {:induction false} WordsStep(f: string)
    requires f != ""
    ensures IsBlank(f[0]) ==> Words(f) == Words(f[1..])
    ensures !IsBlank(f[0]) ==> Words(f) == [f[..WordLen(f)]] + Words(f[WordLen(f)..])
  {
    hide IsBlank, WordLen;
  }

  lemma {:induction false} OneWord(f: string)
    requires f != "" && !IsBlank(f[0]) && WordLen(f) == |f|
    ensures Words(f) == [f]
  {
    hide IsBlank, WordLen;
    assert f[..|f|] == f && f[|f|..] == "";
  }

  lemma {:induction false} WordsLonger(f: string, c: char)
    requires !IsBlank(c) && EndsWord(f)
    ensures Words(f) != []
    ensures var ws := Words(f); Words(f + [c]) == ws[..|ws| - 1] + [ws[|ws| - 1] + [c]]
    decreases |f|
  {
    hide IsBlank, Words, WordLen;
    var g := f + [c];
    if IsBlank(f[0]) {
      assert g[1..] == f[1..] + [c];
      WordsLonger(f[1..], c);
      WordsStep(f);
      WordsStep(g);
    } else {
      var n := WordLen(f);
      WordLenSnoc(f, c);
      if n == |f| {
        OneWord(f);
        OneWord(g);
      } else {
        assert g[..n] == f[..n] && g[n..] == f[n..] + [c];
        WordsLonger(f[n..], c);
        WordsStep(f);
        WordsStep(g);
        LongerTail(f[..n], Words(f[n..]), c);
      }
    }
  }

  lemma {:induction false} LongerTail(w: string, ws: seq<string>, c: char)
    requires ws != []
    ensures var all := [w] + ws;
      [w] + (ws[..|ws| - 1] + [ws[|ws| - 1] + [c]]) == all[..|all| - 1] + [all[|all| - 1] + [c]]
  {
  }

  lemma {:induction false} JoinSnoc(ws: seq<string>, w: string)
    ensures Join(ws + [w]) == if ws == [] then w else Join(ws) + " " + w
  {
    assert (ws + [w])[..|ws|] == ws;
  }

  lemma {:induction false} JoinLonger(ws: seq<string>, c: char)
    requires ws != []
    ensures Join(ws[..|ws| - 1] + [ws[|ws| - 1] + [c]]) == Join(ws) + [c]
  {
    var init, w := ws[..|ws| - 1], ws[|ws| - 1];
    JoinSnoc(init, w + [c]);
    JoinSnoc(init, w);
    assert ws == init + [w];
    assert Join(init) + " " + (w + [c]) == Join(init) + " " + w + [c];
  }

  lemma {:induction false} WordsNonEmpty(f: string)
    ensures forall w :: w in Words(f) ==> w != ""
    ensures EndsWord(f) ==> Words(f) != []
    decreases |f|
  {
    hide IsBlank;
    if f != "" {
      WordsNonEmpty(if IsBlank(f[0]) then f[1..] else f[WordLen(f)..]);
    }
  }

  lemma {:induction false} JoinEmpty(ws: seq<string>)
    requires forall w :: w in ws ==> w != ""
    ensures Join(ws) == "" <==> ws == []
  {
    if |ws| == 1 {
      assert ws[0] in ws;
    }
  }

  /** How the declarative text grows by one kept character. */
  lemma {:induction false} NeutralSnoc(f: string, c: char)
    ensures var out := Join(Words(f));
      Join(Words(f + [c])) ==
        if IsBlank(c) then out
        else if EndsWord(f) then out + [c]
        else if out != "" then out + " " + [c]
        else [c]
    ensures EndsWord(f) ==> Join(Words(f)) != ""
  {
    hide IsBlank, Words, Join, EndsWord;
    WordsNonEmpty(f);
    JoinEmpty(Words(f));
    if IsBlank(c) {
      WordsBlank(f, c);
    } else if EndsWord(f) {
      WordsLonger(f, c);
      JoinLonger(Words(f), c);
    } else {
      WordsNew(f, c);
      JoinSnoc(Words(f), [c]);
    }
  }

  // ----- the one-pass loop -----

  /** `operator_safe_chars`: one pass with an output buffer and a pending space. */
  method OperatorSafeChars(s: string) returns (out: string)
    ensures out == Neutral(s)
  {
    hide IsBlank, IsDropped, Words, Join;
    out := "";
    var pendingSpace := false;
    ghost var seen := "";
    EmptyNeutral();
    for i := 0 to |s|
      invariant seen == Filtered(s[..i]) && out == Join(Words(seen))
      invariant pendingSpace <==> seen != "" && IsBlank(seen[|seen| - 1])
    {
      var ch := s[i];
      assert s[..i + 1][..i] == s[..i];
      if IsBlank(ch) {
        BlankKept(ch);
        NeutralSnoc(seen, ch);
        seen := seen + [ch];
        pendingSpace := true;
      } else if !IsDropped(ch) {
        NeutralSnoc(seen, ch);
        if pendingSpace && out != "" {
          out := out + [' '];
        }
        pendingSpace := false;
        out := out + [ch];
        seen := seen + [ch];
      }
    }
    assert s[..|s|] == s;
  }

  lemma {:induction false} EmptyNeutral()
    ensures Filtered("") == "" && Join(Words("")) == ""
  {
  }

  lemma {:induction false} BlankKept(c: char)
    requires IsBlank(c)
    ensures !IsDropped(c)
  {
  }

  // ----- canonical text -----

  /** Already neutral: nothing dropped, single spaces, none at the ends. */
  ghost predicate Canonical(t: string) {
    && (forall i :: 0 <= i < |t| ==> !IsDropped(t[i]) && (IsBlank(t[i]) ==> t[i] == ' '))
    && (forall i :: 0 < i < |t| && t[i] == ' ' ==> t[i - 1] != ' ')
    && (t != "" ==> t[0] != ' ' && t[|t| - 1] != ' ')
  }

  lemma {:induction false} CanonicalSnoc(t: string, c: char)
    requires Canonical(t) && !IsBlank(c) && !IsDropped(c)
    ensures Canonical(t + [c]) && (t != "" ==> Canonical(t + " " + [c]))
  {
    assert !IsDropped(' ') && IsBlank(' ');
    hide IsDropped;
  }

  lemma {:induction false} FilteredKeeps(s: string)
    ensures forall i :: 0 <= i < |Filtered(s)| ==> !IsDropped(Filtered(s)[i])
  {
    hide IsDropped;
    if s != "" { FilteredKeeps(s[..|s| - 1]); }
  }

  lemma {:induction false} JoinCanonical(f: string)
    requires forall i :: 0 <= i < |f| ==> !IsDropped(f[i])
    ensures Canonical(Join(Words(f)))
    decreases |f|
  {
    hide IsBlank, IsDropped, Words, Join, Canonical;
    if f == "" {
      EmptyNeutral();
      assert Canonical("") by { CanonicalEmpty(); }
    } else {
      var g, c := f[..|f| - 1], f[|f| - 1];
      assert f == g + [c];
      JoinCanonical(g);
      NeutralSnoc(g, c);
      if !IsBlank(c) { CanonicalSnoc(Join(Words(g)), c); CanonicalOne(c); }
    }
  }

  lemma {:induction false} CanonicalEmpty()
    ensures Canonical("")
  {
  }

  lemma {:induction false} CanonicalOne(c: char)
    requires !IsBlank(c) && !IsDropped(c)
    ensures Canonical([c])
  {
  }

  lemma {:induction false} NeutralIsCanonical(s: string)
    ensures Canonical(Neutral(s))
  {
    hide Canonical, Words, Join;
    FilteredKeeps(s);
    JoinCanonical(Filtered(s));
  }

  lemma {:induction false} FilteredSame(t: string)
    requires forall i :: 0 <= i < |t| ==> !IsDropped(t[i])
    ensures Filtered(t) == t
  {
    hide IsDropped;
    if t != "" {
      FilteredSame(t[..|t| - 1]);
      assert t == t[..|t| - 1] + [t[|t| - 1]];
    }
  }

  /** Of a canonical text, every prefix is neutral up to a trailing space. */
  lemma {:induction false} PrefixNeutral(t: string, n: nat)
    requires Canonical(t) && n <= |t|
    ensures Join(Words(t[..n])) == if n > 0 && t[n - 1] == ' ' then t[..n - 1] else t[..n]
  {
    hide IsDropped, Words, Join;
    if n == 0 {
      EmptyNeutral();
      assert t[..0] == "";
    } else {
      PrefixNeutral(t, n - 1);
      assert t[..n] == t[..n - 1] + [t[n - 1]];
      NeutralSnoc(t[..n - 1], t[n - 1]);
      if n > 1 && t[n - 2] == ' ' && t[n - 1] != ' ' {
        assert t[..n - 1] == t[..n - 2] + " ";
      }
    }
  }

  /** Canonical text is a fixed point. */
  lemma {:induction false} CanonicalFixed(t: string)
    requires Canonical(t)
    ensures Neutral(t) == t
  {
    hide IsDropped, Words, Join, IsBlank;
    FilteredSame(t);
    PrefixNeutral(t, |t|);
    assert t[..|t|] == t;
  }

  // ----- nothing else is lost -----

  /** The characters that are shown, spaces left out. */
  function Visible(s: string): string {
    if s == "" then ""
    else Visible(s[..|s| - 1]) + (if IsBlank(s[|s| - 1]) || IsDropped(s[|s| - 1]) then "" else [s[|s| - 1]])
  }

  lemma {:induction false} VisibleSnoc(s: string, c: char)
    ensures Visible(s + [c]) == Visible(s) + if IsBlank(c) || IsDropped(c) then "" else [c]
  {
    hide IsBlank, IsDropped;
    assert (s + [c])[..|s|] == s;
  }

  lemma {:induction false} FilteredSnoc(s: string, c: char)
    ensures Filtered(s + [c]) == Filtered(s) + if IsDropped(c) then "" else [c]
  {
    hide IsDropped;
    assert (s + [c])[..|s|] == s;
  }

  /** A blank stands behind the last character of `s` that is shown, or in front when none is. */
  ghost predicate BlankSince(s: string) {
    exists i :: 0 <= i < |s| && IsBlank(s[i]) && forall j :: i < j < |s| ==> IsDropped(s[j])
  }

  lemma {:induction false} BlankSinceIff(s: string)
    ensures BlankSince(s) <==> Filtered(s) != "" && IsBlank(Filtered(s)[|Filtered(s)| - 1])
  {
    if s != "" {
      var t, c := s[..|s| - 1], s[|s| - 1];
      assert s == t + [c];
      FilteredSnoc(t, c);
      BlankSinceIff(t);
      if IsBlank(c) { BlankKept(c); }
      BlankSinceSnoc(t, c);
    }
  }

  lemma {:induction false} BlankSinceSnoc(t: string, c: char)
    ensures BlankSince(t + [c]) <==> IsBlank(c) || (IsDropped(c) && BlankSince(t))
  {
    var s := t + [c];
    assert s[|t|] == c;
    assert forall i :: 0 <= i < |t| ==> s[i] == t[i];
    if IsBlank(c) {
      assert IsBlank(s[|t|]);
    }
    hide IsBlank, IsDropped;
    if IsDropped(c) && BlankSince(t) {
      var i :| 0 <= i < |t| && IsBlank(t[i]) && forall j :: i < j < |t| ==> IsDropped(t[j]);
      assert IsBlank(s[i]);
    }
    if BlankSince(s) && !IsBlank(c) {
      var i :| 0 <= i < |s| && IsBlank(s[i]) && forall j :: i < j < |s| ==> IsDropped(s[j]);
      assert IsDropped(s[|t|]);
      assert IsBlank(t[i]);
    }
  }

  /** Reading one more character: a dropped one and a blank add nothing; any other is added, behind one space when a
      blank stands between it and what is shown before it. */
  lemma {:induction false} OneMore(s: string, c: char)
    ensures Neutral("") == ""
    ensures Neutral(s + [c]) ==
      if IsDropped(c) || IsBlank(c) then Neutral(s)
      else Neutral(s) + (if BlankSince(s) && Neutral(s) != "" then " " else "") + [c]
  {
    hide IsBlank, IsDropped, Words, Join, BlankSince;
    EmptyNeutral();
    FilteredSnoc(s, c);
    BlankSinceIff(s);
    var f := Filtered(s);
    if !IsDropped(c) {
      NeutralSnoc(f, c);
      assert Join(Words(f)) + "" == Join(Words(f));
    } else {
      assert f + "" == f;
    }
    if f == "" { assert Neutral(s) == ""; }
  }

  /** Every character that is neither dropped nor blank is shown, in order, and no other. */
  lemma {:induction false} KeepsVisible(s: string)
    ensures Visible(Neutral(s)) == Visible(s)
  {
    hide IsBlank, IsDropped, Neutral, BlankSince, Visible;
    if s == "" {
      OneMore("", 'a');
    } else {
      var t, c := s[..|s| - 1], s[|s| - 1];
      assert s == t + [c];
      KeepsVisible(t);
      OneMore(t, c);
      VisibleSnoc(t, c);
      assert Visible(t) + "" == Visible(t);
      if !IsBlank(c) && !IsDropped(c) {
        var n := Neutral(t);
        BlankSpace();
        VisibleSnoc(n, ' ');
        VisibleSnoc(n, c);
        VisibleSnoc(n + " ", c);
        assert n + "" + [c] == n + [c] && Visible(n) + "" == Visible(n);
      }
    }
  }

  lemma {:induction false} BlankSpace()
    ensures IsBlank(' ')
  {
  }

  /** What is shown holds no control character, none that reorders text, and none that hides. */
  lemma {:induction false} NothingHidden(s: string, i: nat)
    requires i < |Neutral(s)|
    ensures var c := Neutral(s)[i];
      && c >= ' ' && c != '\U{7F}' && !('\U{80}' <= c <= '\U{9F}')
      && !('\U{2028}' <= c <= '\U{202E}') && !('\U{2066}' <= c <= '\U{2069}') && c != '\U{61C}'
      && !('\U{200B}' <= c <= '\U{200F}') && c != '\U{FEFF}' && c != '\U{AD}' && c != '\U{34F}'
      && !('\U{180B}' <= c <= '\U{180E}') && !('\U{2060}' <= c <= '\U{2064}') && !('\U{206A}' <= c <= '\U{206F}')
      && !('\U{FFF9}' <= c <= '\U{FFFB}') && !('\U{E0000}' <= c <= '\U{E007F}')
  {
    NeutralIsCanonical(s);
    hide Neutral;
  }

  // ----- one bounded line -----

  const MAX_RENDERED_LEN: nat := 512

  const TRUNCATION_MARKER: string := "\U{2026} [truncated]"

  function Capped(out: string): string {
    if |out| > MAX_RENDERED_LEN then out[..MAX_RENDERED_LEN] + TRUNCATION_MARKER else out
  }

  /** `operator_safe` as a function of the text. */
  function Safe(s: string): string {
    Capped(Neutral(s))
  }

  method OperatorSafe(s: string) returns (out: string)
    ensures out == Safe(s)
  {
    out := OperatorSafeChars(s);
    if |out| > MAX_RENDERED_LEN {
      out := out[..MAX_RENDERED_LEN] + TRUNCATION_MARKER;
    }
  }

  lemma {:induction false} MarkerCanonical()
    ensures |TRUNCATION_MARKER| == 13 && Canonical(TRUNCATION_MARKER)
  {
    assert TRUNCATION_MARKER == ['\U{2026}', ' ', '[', 't', 'r', 'u', 'n', 'c', 'a', 't', 'e', 'd', ']'];
  }

  lemma {:induction false} CutCanonical(t: string, n: nat, m: string)
    requires Canonical(t) && 0 < n <= |t| && Canonical(m) && m != ""
    ensures Canonical(t[..n] + m)
  {
    hide IsDropped, IsBlank;
  }

  /** `operator_safe` is idempotent, on truncated output too, and bounded. */
  lemma {:induction false} SafeIdempotent(s: string)
    ensures Safe(Safe(s)) == Safe(s)
    ensures |Safe(s)| <= MAX_RENDERED_LEN + |TRUNCATION_MARKER|
    ensures Canonical(Safe(s))
  {
    hide Canonical, Neutral;
    NeutralIsCanonical(s);
    MarkerCanonical();
    var out := Neutral(s);
    if |out| > MAX_RENDERED_LEN {
      var t := out[..MAX_RENDERED_LEN] + TRUNCATION_MARKER;
      CutCanonical(out, MAX_RENDERED_LEN, TRUNCATION_MARKER);
      CanonicalFixed(t);
      assert t[..MAX_RENDERED_LEN] == out[..MAX_RENDERED_LEN];
    } else {
      CanonicalFixed(out);
    }
  }

  /** A line of up to 512 characters is shown as it is; of a longer one, that many and the marker. */
  lemma {:induction false} SafeIs(s: string)
    ensures |Neutral(s)| <= 512 ==> Safe(s) == Neutral(s)
    ensures |Neutral(s)| > 512 ==> Safe(s) == Neutral(s)[..512] + "\U{2026} [truncated]"
  {
    hide Neutral;
  }

  // ----- blocks -----

  const MAX_RENDERED_LINES: nat := 40

  const LINE_TRUNCATION_MARKER: string := "\U{2026} [truncated: block too long to display]"

  function NewlineAt(s: string): (n: nat)
    ensures n <= |s| && (n < |s| ==> s[n] == '\n') && forall i :: 0 <= i < n ==> s[i] != '\n'
  {
    if s == "" || s[0] == '\n' then 0 else 1 + NewlineAt(s[1..])
  }

  /** `str::lines`: split after each newline; a carriage return before it goes with it. */
  function Lines(s: string): seq<string>
    decreases |s|
  {
    if s == "" then []
    else
      var n := NewlineAt(s);
      if n == |s| then [s]
      else [if n > 0 && s[n - 1] == '\r' then s[..n - 1] else s[..n]] + Lines(s[n + 1..])
  }

  /** A text without newlines is one line, or none; a newline ends a line, and takes a carriage return with it. */
  lemma {:induction false} LinesAre(line: string, rest: string)
    requires '\n' !in line
    ensures Lines("") == [] && (line != "" ==> Lines(line) == [line])
    ensures Lines(line + "\n" + rest) ==
      [if line != "" && line[|line| - 1] == '\r' then line[..|line| - 1] else line] + Lines(rest)
  {
    hide Lines;
    if line != "" { LinesStep(line); }
    LinesStep(line + "\n" + rest);
    LinesNone();
    NewlineBehind(line, rest);
    var t := line + "\n" + rest;
    assert t[..|line|] == line && t[|line| + 1..] == rest;
    if line != "" { assert t[|line| - 1] == line[|line| - 1] && t[..|line| - 1] == line[..|line| - 1]; }
  }

  lemma {:induction false} LinesNone()
    ensures Lines("") == []
  {
  }

  lemma {:induction false} LinesStep(s: string)
    requires s != ""
    ensures var n := NewlineAt(s);
      Lines(s) == if n == |s| then [s]
        else [if n > 0 && s[n - 1] == '\r' then s[..n - 1] else s[..n]] + Lines(s[n + 1..])
  {
    hide NewlineAt;
  }

  lemma {:induction false} NewlineBehind(line: string, rest: string)
    requires '\n' !in line
    ensures NewlineAt(line) == |line| && NewlineAt(line + "\n" + rest) == |line|
  {
    hide NewlineAt;
    var t := line + "\n" + rest;
    assert t[|line|] == '\n';
    assert forall i :: 0 <= i < |line| ==> t[i] == line[i] && line[i] in line;
  }

  /** The indentation is all the white space in front of a line. */
  lemma {:induction false} IndentIs(white: string, rest: string)
    requires (forall i :: 0 <= i < |white| ==> IsWhite(white[i])) && (rest == "" || !IsWhite(rest[0]))
    ensures Indent(white + rest) == white
  {
    hide IsWhite;
    var line := white + rest;
    if white == "" {
      assert line == rest && line[..0] == "";
    } else {
      assert line[1..] == white[1..] + rest && line[0] == white[0];
      IndentIs(white[1..], rest);
      assert line[1..][..|white| - 1] == white[1..];
      assert IndentLen(line) == 1 + IndentLen(line[1..]);
      IndentLong(white[1..], rest);
      assert line[..|white|] == white;
    }
  }

  lemma {:induction false} IndentLong(white: string, rest: string)
    requires Indent(white + rest) == white
    ensures IndentLen(white + rest) == |white|
  {
  }

  function IndentLen(line: string): (n: nat)
    ensures n <= |line|
  {
    if line != "" && IsWhite(line[0]) then 1 + IndentLen(line[1..]) else 0
  }

  /** Leading white space is copied as it is. */
  function Indent(line: string): string {
    line[..IndentLen(line)]
  }

  predicate EndsWith(s: string, m: string) {
    |m| <= |s| && s[|s| - |m|..] == m
  }

  datatype OperatorBlock = OperatorBlock(text: string, withheldLines: nat, shortenedLines: nat) {
    predicate IsComplete() {
      withheldLines == 0 && shortenedLines == 0
    }
  }

  /** One line of a bounded block. */
  function Rendered(line: string): string {
    Indent(line) + Safe(line)
  }

  /** One line of a full block. */
  function RenderedFull(line: string): string {
    Indent(line) + Neutral(line)
  }

  ghost function RenderedAll(ls: seq<string>): seq<string> {
    seq(|ls|, i requires 0 <= i < |ls| => Rendered(ls[i]))
  }

  ghost function RenderedFullAll(ls: seq<string>): seq<string> {
    seq(|ls|, i requires 0 <= i < |ls| => RenderedFull(ls[i]))
  }

  /** How many of these lines come out of the one-line pass with the marker at the end. */
  ghost function Shortened(ls: seq<string>): nat {
    if ls == [] then 0
    else Shortened(ls[..|ls| - 1]) + (if EndsWith(Safe(ls[|ls| - 1]), TRUNCATION_MARKER) then 1 else 0)
  }

  ghost function Shown(ls: seq<string>): seq<string> {
    if |ls| <= MAX_RENDERED_LINES then ls else ls[..MAX_RENDERED_LINES]
  }

  function WithheldNote(withheld: nat): string {
    LINE_TRUNCATION_MARKER + " (" + Digits(withheld) + " more)"
  }

  /** `operator_safe_block`: the first lines rendered in order, one note when lines were dropped,
      and the counts of what is missing. */
  method OperatorSafeBlock(s: string) returns (b: OperatorBlock)
    ensures var ls := Lines(s); var n := |ls|;
      && b.withheldLines == (if n <= MAX_RENDERED_LINES then 0 else n - MAX_RENDERED_LINES)
      && b.shortenedLines == Shortened(Shown(ls))
      && b.text == TextLines.Join(RenderedAll(Shown(ls)) + if b.withheldLines > 0 then [WithheldNote(b.withheldLines)]
        else [])
    ensures b == BlockOf(s)
  {
    hide Neutral, Indent, Lines, Safe;
    var ls := Lines(s);
    var total := |ls|;
    var shown := if total <= MAX_RENDERED_LINES then ls else ls[..MAX_RENDERED_LINES];
    var shortened := 0;
    var lines: seq<string> := [];
    for i := 0 to |shown|
      invariant shortened == Shortened(shown[..i])
      invariant lines == RenderedAll(shown[..i])
    {
      assert shown[..i + 1][..i] == shown[..i] && shown[..i + 1][i] == shown[i];
      var rendered := OperatorSafe(shown[i]);
      if EndsWith(rendered, TRUNCATION_MARKER) {
        shortened := shortened + 1;
      }
      lines := lines + [Indent(shown[i]) + rendered];
    }
    assert shown[..|shown|] == shown;
    var withheld := if total <= MAX_RENDERED_LINES then 0 else total - MAX_RENDERED_LINES;
    if withheld > 0 {
      lines := lines + [WithheldNote(withheld)];
    } else {
      assert lines + [] == lines;
    }
    b := OperatorBlock(TextLines.Join(lines), withheld, shortened);
  }

  /** `operator_safe_block_full`: every line, no caps, nothing counted as missing. */
  method OperatorSafeBlockFull(s: string) returns (b: OperatorBlock)
    ensures b == OperatorBlock(TextLines.Join(RenderedFullAll(Lines(s))), 0, 0)
  {
    hide Neutral, Indent, Lines;
    var ls := Lines(s);
    var lines: seq<string> := [];
    for i := 0 to |ls|
      invariant lines == RenderedFullAll(ls[..i])
    {
      assert ls[..i + 1][..i] == ls[..i] && ls[..i + 1][i] == ls[i];
      var rendered := OperatorSafeChars(ls[i]);
      lines := lines + [Indent(ls[i]) + rendered];
    }
    assert ls[..|ls|] == ls;
    b := OperatorBlock(TextLines.Join(lines), 0, 0);
  }

  lemma {:induction false} ShortenedNone(ls: seq<string>)
    ensures Shortened(ls) == 0 <==> forall i :: 0 <= i < |ls| ==> !EndsWith(Safe(ls[i]), TRUNCATION_MARKER)
  {
    hide Safe, EndsWith;
    if ls != [] {
      ShortenedNone(ls[..|ls| - 1]);
      assert forall i :: 0 <= i < |ls| - 1 ==> ls[..|ls| - 1][i] == ls[i];
    }
  }

  lemma {:induction false} CutEndsWithMarker(s: string)
    requires |Neutral(s)| > MAX_RENDERED_LEN
    ensures EndsWith(Safe(s), TRUNCATION_MARKER)
  {
    hide Neutral;
    var out, m := Neutral(s)[..MAX_RENDERED_LEN], TRUNCATION_MARKER;
    assert (out + m)[|out + m| - |m|..] == m;
  }

  /** The bounded block of a text. */
  ghost function BlockOf(s: string): OperatorBlock {
    var ls := Lines(s);
    OperatorBlock(TextLines.Join(BlockLines(ls)), if |ls| <= MAX_RENDERED_LINES then 0 else |ls| - MAX_RENDERED_LINES,
      Shortened(Shown(ls)))
  }

  /** The lines of the bounded block. */
  ghost function BlockLines(ls: seq<string>): seq<string> {
    RenderedAll(Shown(ls)) + if |ls| > MAX_RENDERED_LINES then [WithheldNote(|ls| - MAX_RENDERED_LINES)] else []
  }

  /** Forty lines at most, each its indentation and its safe text, and one line that says how many are missing. */
  lemma {:induction false} BlockShape(ls: seq<string>)
    ensures |BlockLines(ls)| == if |ls| <= 40 then |ls| else 41
    ensures forall i :: 0 <= i < |ls| && i < 40 ==> BlockLines(ls)[i] == Indent(ls[i]) + Safe(ls[i])
    ensures var note := "\U{2026} [truncated: block too long to display]";
      |ls| > 40 ==> BlockLines(ls)[40] == note + " (" + Digits(|ls| - 40) + " more)"
  {
    hide Indent, Safe, Digits;
  }

  /** `is_complete` exactly when every line is shown and none comes out with the marker; and then
      the bounded text is the uncapped one. */
  lemma {:induction false} CompleteMeansEverything(s: string)
    ensures var ls := Lines(s);
      BlockOf(s).IsComplete() <==>
        |ls| <= MAX_RENDERED_LINES && forall i :: 0 <= i < |ls| ==> !EndsWith(Safe(ls[i]), TRUNCATION_MARKER)
    ensures BlockOf(s).IsComplete() ==> BlockOf(s).text == TextLines.Join(RenderedFullAll(Lines(s)))
  {
    hide Neutral, Indent, Lines, Safe, EndsWith, Shortened, TextLines.Join;
    var ls := Lines(s);
    ShortenedNone(Shown(ls));
    if BlockOf(s).IsComplete() {
      forall i | 0 <= i < |ls| ensures Rendered(ls[i]) == RenderedFull(ls[i]) {
        NotCut(ls[i]);
      }
      assert RenderedAll(ls) + [] == RenderedFullAll(ls);
    }
  }

  lemma {:induction false} NotCut(line: string)
    ensures !EndsWith(Safe(line), TRUNCATION_MARKER) ==> Safe(line) == Neutral(line)
  {
    hide Neutral, EndsWith;
    if |Neutral(line)| > MAX_RENDERED_LEN { CutEndsWithMarker(line); }
  }

  /** The converse fails: a text that is the marker itself is shown whole, and its line still counted as
      shortened. */
  lemma {:induction false} WholeButCounted()
    ensures var s := TRUNCATION_MARKER;
      BlockOf(s).text == TextLines.Join(RenderedFullAll(Lines(s))) && !BlockOf(s).IsComplete()
  {
    var s := TRUNCATION_MARKER;
    MarkerCanonical();
    MarkerLine();
    hide Canonical, Neutral, Lines, Indent, BlockOf, TextLines.Join;
    CanonicalFixed(s);
    assert s[0..] == s;
    assert Lines(s)[0] == s && EndsWith(Safe(s), TRUNCATION_MARKER);
    WholeTextIff(s);
  }

  lemma {:induction false} MarkerLine()
    ensures Lines(TRUNCATION_MARKER) == [TRUNCATION_MARKER]
  {
    var s := TRUNCATION_MARKER;
    assert s == ['\U{2026}', ' ', '[', 't', 'r', 'u', 'n', 'c', 'a', 't', 'e', 'd', ']'];
    assert '\n' !in s;
  }

  // ----- when the bounded text is the whole text -----

  /** A line that the cap leaves whole: short enough, or ending just so that the cut puts back what it
      took. */
  predicate LeftWhole(line: string) {
    var out := Neutral(line);
    |out| <= MAX_RENDERED_LEN ||
    (|out| == MAX_RENDERED_LEN + |TRUNCATION_MARKER| && EndsWith(out, TRUNCATION_MARKER))
  }

  lemma {:induction false} LeftWholeIff(line: string)
    ensures Safe(line) == Neutral(line) <==> LeftWhole(line)
    ensures Rendered(line) == RenderedFull(line) <==> LeftWhole(line)
  {
    hide Neutral, Indent;
    var out, m := Neutral(line), TRUNCATION_MARKER;
    if |out| > MAX_RENDERED_LEN {
      assert out == out[..MAX_RENDERED_LEN] + out[MAX_RENDERED_LEN..];
      if out[MAX_RENDERED_LEN..] != m && |out| == MAX_RENDERED_LEN + |m| {
        assert (out[..MAX_RENDERED_LEN] + m)[MAX_RENDERED_LEN..] == m;
      }
    }
    SamePrefix(Indent(line), Safe(line), Neutral(line));
  }

  lemma {:induction false} SamePrefix(p: string, a: string, b: string)
    ensures p + a == p + b <==> a == b
  {
    if p + a == p + b {
      assert (p + a)[|p|..] == a && (p + b)[|p|..] == b;
    }
  }

  lemma {:induction false} LinesNoNewline(s: string)
    ensures forall i :: 0 <= i < |Lines(s)| ==> '\n' !in Lines(s)[i]
    decreases |s|
  {
    if s != "" {
      var n := NewlineAt(s);
      if n < |s| {
        LinesNoNewline(s[n + 1..]);
      }
    }
  }

  lemma {:induction false} RenderedNoNewline(line: string)
    requires '\n' !in line
    ensures '\n' !in Rendered(line) && '\n' !in RenderedFull(line)
  {
    hide IsDropped, Neutral, Safe;
    SafeIdempotent(line);
    NeutralIsCanonical(line);
    CanonicalNoNewline(Safe(line));
    CanonicalNoNewline(Neutral(line));
    assert forall c :: c in Indent(line) ==> c in line;
  }

  lemma {:induction false} CanonicalNoNewline(t: string)
    requires Canonical(t)
    ensures '\n' !in t
  {
    hide IsDropped;
  }

  lemma {:induction false} NoteNoNewline(n: nat)
    ensures '\n' !in WithheldNote(n)
  {
    var digits := Digits(n);
    assert forall i :: 0 <= i < |digits| ==> digits[i] != '\n';
    assert '\n' !in LINE_TRUNCATION_MARKER && '\n' !in " (" && '\n' !in " more)";
  }

  /** Lists of lines with the same text are the same. */
  lemma {:induction false} JoinedOnce(a: seq<string>, b: seq<string>)
    requires (a == [] <==> b == []) && TextLines.AllNoNewline(a) && TextLines.AllNoNewline(b)
    ensures TextLines.Join(a) == TextLines.Join(b) <==> a == b
  {
    hide TextLines.Join, TextLines.AllNoNewline;
    if a != [] {
      TextLines.SplitJoin(a);
      TextLines.SplitJoin(b);
    }
  }

  lemma {:induction false} BlockLinesPlain(s: string)
    ensures TextLines.AllNoNewline(BlockLines(Lines(s))) && TextLines.AllNoNewline(RenderedFullAll(Lines(s)))
  {
    hide Rendered, RenderedFull, WithheldNote, Lines;
    var ls := Lines(s);
    LinesNoNewline(s);
    forall i | 0 <= i < |ls| ensures '\n' !in Rendered(ls[i]) && '\n' !in RenderedFull(ls[i]) {
      RenderedNoNewline(ls[i]);
    }
    if |ls| > MAX_RENDERED_LINES {
      NoteNoNewline(|ls| - MAX_RENDERED_LINES);
    }
  }

  /** Every shown line is left whole, and at most one line is not shown: one that reads like the note in
      its place. */
  ghost predicate ShowsEverything(ls: seq<string>) {
    (forall i :: 0 <= i < |Shown(ls)| ==> LeftWhole(ls[i])) &&
    (|ls| <= MAX_RENDERED_LINES ||
     (|ls| == MAX_RENDERED_LINES + 1 && RenderedFull(ls[MAX_RENDERED_LINES]) == WithheldNote(1)))
  }

  lemma {:induction false} SameLinesIff(ls: seq<string>)
    ensures BlockLines(ls) == RenderedFullAll(ls) <==> ShowsEverything(ls)
  {
    hide Rendered, RenderedFull, WithheldNote, LeftWhole;
    var a, b := BlockLines(ls), RenderedFullAll(ls);
    forall i | 0 <= i < |Shown(ls)| ensures (a[i] == b[i] <==> LeftWhole(ls[i])) && Shown(ls)[i] == ls[i] {
      LeftWholeIff(ls[i]);
    }
    if ShowsEverything(ls) {
      assert |a| == |b|;
      assert |ls| > MAX_RENDERED_LINES ==>
        a[MAX_RENDERED_LINES] == WithheldNote(1) && b[MAX_RENDERED_LINES] == RenderedFull(ls[MAX_RENDERED_LINES]);
      assert a == b;
    }
    if a == b {
      assert |ls| > MAX_RENDERED_LINES ==>
        |a| == MAX_RENDERED_LINES + 1 && a[MAX_RENDERED_LINES] == WithheldNote(|ls| - MAX_RENDERED_LINES);
    }
  }

  /** The bounded text is the whole text exactly when it shows everything; so it is whole and yet not called
      complete exactly when, besides, a shown line ends in the marker or one line reads like the note. */
  lemma {:induction false} WholeTextIff(s: string)
    ensures BlockOf(s).text == TextLines.Join(RenderedFullAll(Lines(s))) <==> ShowsEverything(Lines(s))
    ensures var ls, b := Lines(s), BlockOf(s);
      b.text == TextLines.Join(RenderedFullAll(ls)) && !b.IsComplete() <==>
      ShowsEverything(ls) &&
      (|ls| > MAX_RENDERED_LINES || exists i :: 0 <= i < |ls| && EndsWith(Safe(ls[i]), TRUNCATION_MARKER))
  {
    hide Rendered, RenderedFull, WithheldNote, LeftWhole, Lines, Safe, EndsWith, Shortened;
    var ls := Lines(s);
    BlockLinesPlain(s);
    JoinedOnce(BlockLines(ls), RenderedFullAll(ls));
    SameLinesIff(ls);
    ShortenedNone(Shown(ls));
  }

  /** A character that can neither move the cursor nor hide text. */
  predicate Harmless(c: char) {
    !IsDropped(c) && (IsBlank(c) ==> c == ' ')
  }

  ghost predicate AllHarmless(s: string) {
    forall i :: 0 <= i < |s| ==> Harmless(s[i])
  }

  lemma {:induction false} HarmlessConcat(a: string, b: string)
    requires AllHarmless(b)
    ensures AllHarmless(a + b) <==> AllHarmless(a)
  {
    hide Harmless;
    if AllHarmless(a + b) {
      assert forall i :: 0 <= i < |a| ==> a[i] == (a + b)[i];
    }
  }

  /** A rendered line holds only harmless characters exactly when its indentation does: the
      indentation is copied verbatim, and white space includes characters that are dropped
      elsewhere. */
  lemma {:induction false} LineHarmlessIff(line: string)
    ensures AllHarmless(Safe(line))
    ensures AllHarmless(Rendered(line)) <==> AllHarmless(Indent(line))
  {
    hide IsDropped, IsBlank, Safe, Indent;
    SafeIdempotent(line);
    HarmlessConcat(Indent(line), Safe(line));
  }

  /** A line separator in front of a line is copied through. */
  lemma {:induction false} IndentCopiesSeparator()
    ensures var line := "\U{2028}x"; !Harmless(Rendered(line)[0])
  {
    var line := "\U{2028}x";
    assert IsWhite(line[0]) && IsDropped(line[0]);
    assert IndentLen(line) >= 1;
    assert Rendered(line)[0] == Indent(line)[0] == line[0];
  }
}
