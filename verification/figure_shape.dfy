/** What a figure comment looks like, said on its text, and that the scanner recognises exactly that. */
module FigureShape {
  import opened Decimal
  import opened Wrappers
  import opened FigureMarkers
  import opened FigureScan

  ghost predicate Blank(s: string) {
    forall i :: 0 <= i < |s| ==> IsSpace(s[i])
  }

  ghost predicate PlainName(name: string) {
    name != "" && forall i :: 0 <= i < |name| ==> IsNameChar(name[i])
  }

  /** White space, `floor=` and the digits of `k`. */
  ghost predicate FloorText(s: string, k: nat) {
    exists w, digits ::
      Blank(w) && w != "" && digits != "" && AllDigits(digits) && ParseNat(digits) == k && s == w + "floor=" + digits
  }

  /** A colon and the name, and with a floor white space, `floor=` and its digits. */
  ghost predicate FigureText(body: string, name: string, floor: Option<nat>) {
    PlainName(name) &&
    if floor.None? then body == ":" + name
    else exists tail :: FloorText(tail, floor.value) && body == ":" + name + tail
  }

  /** `c` is the comment that opens figure `name` with this floor. */
  ghost predicate OpensFigure(c: string, name: string, floor: Option<nat>) {
    exists a, b, body, d ::
      Blank(a) && Blank(b) && Blank(d) && FigureText(body, name, floor) &&
      c == "<!--" + a + "fig" + b + body + d + "-->"
  }

  /** `c` is a closing comment. */
  ghost predicate ClosesFigure(c: string) {
    exists a, b :: Blank(a) && Blank(b) && c == "<!--" + a + "/fig" + b + "-->"
  }

  // ----- from the comment to the shape -----

  lemma {:induction false} SkipBlank(a: string, rest: string, u: string, i: nat)
    requires Blank(a) && i + |a| <= |u| && u[i..] == a + rest && (rest == "" || !IsSpace(rest[0]))
    ensures SkipSpaces(u, i) == i + |a|
    decreases |a|
  {
    hide IsSpace;
    if a == "" {
      assert u[i..] == rest;
      assert i < |u| ==> u[i] == rest[0];
    } else {
      assert u[i] == u[i..][0] == a[0];
      assert u[i + 1..] == u[i..][1..] == a[1..] + rest;
      SkipBlank(a[1..], rest, u, i + 1);
    }
  }

  lemma {:induction false} Fronts()
    ensures !IsSpace('f') && !IsSpace('/') && !IsSpace(':') && !IsSpace('-') && !IsWord(':') && !IsWord('-')
    ensures forall c :: IsSpace(c) ==> !IsWord(c) && c != '>' && !IsNameChar(c)
    ensures forall c :: IsNameChar(c) ==> !IsSpace(c) && c != '>'
    ensures forall c :: IsDigit(c) ==> !IsSpace(c) && c != '>'
  {
  }

  /** Reading on in a text. */
  lemma {:induction false} Behind(u: string, i: nat, x: string, y: string)
    requires i <= |u| && u[i..] == x + y
    ensures i + |x| <= |u| && u[i..i + |x|] == x && u[i + |x|..] == y
  {
    var v := u[i..];
    assert v[..|x|] == x && v[|x|..] == y;
    assert u[i..i + |x|] == v[..|x|] && u[i + |x|..] == v[|x|..];
  }

  /** A keyword, and what stands behind it. */
  lemma {:induction false} KeywordIs(a: string, slash: string, rest: string)
    requires Blank(a) && (slash == "" || slash == "/") && rest != "" && !IsWord(rest[0])
    ensures var u, k := "<!--" + a + slash + "fig" + rest, 7 + |a| + |slash|;
      KeywordLen(u) == k && (IsClosing(u) <==> slash == "/") && u[k..] == rest
  {
    hide IsWord, IsSpace;
    Fronts();
    var u, k := "<!--" + a + slash + "fig" + rest, 7 + |a| + |slash|;
    var fig, opener := "fig", "<!--";
    var tail := slash + (fig + rest);
    assert u == opener + (a + tail) && u[0..] == u;
    var at := 4 + |a|;
    Behind(u, 0, opener, a + tail);
    Behind(u, 4, a, tail);
    Behind(u, at, slash, fig + rest);
    Behind(u, at + |slash|, fig, rest);
    assert tail[0] == (if slash == "" then 'f' else '/');
    SkipBlank(a, tail, u, 4);
    assert u[at] == u[at..][0] && u[k] == u[k..][0];
    KeywordFrom(u, at, slash, k);
  }

  lemma {:induction false} KeywordFrom(u: string, at: nat, slash: string, k: nat)
    requires |u| >= 4 && u[0..4] == "<!--" && SkipSpaces(u, 4) == at && (slash == "" || slash == "/")
    requires k == at + |slash| + 3 < |u| && u[at + |slash|..k] == "fig" && !IsWord(u[k])
    requires u[at] == if slash == "" then 'f' else '/'
    ensures KeywordLen(u) == k && (IsClosing(u) <==> slash == "/")
  {
    hide IsWord, SkipSpaces;
  }

  /** The comment ends at the first `>`. */
  lemma {:induction false} EndsAt(u: string, k: nat, inner: string, tail: string)
    requires k <= |u| && u[k..] == inner + "-->" + tail && '>' !in inner
    ensures var g := k + |inner| + 2;
      g < |u| && Find(u, k, '>') == g && u[g - 2] == '-' && u[g - 1] == '-' && u[k..g - 2] == inner
  {
    var s, g := inner + "-->" + tail, k + |inner| + 2;
    assert forall i :: k <= i < |u| ==> u[i] == s[i - k];
    assert s[|inner|] == '-' && s[|inner| + 1] == '-' && s[|inner| + 2] == '>';
    forall i | k <= i < g ensures u[i] != '>' {
      if i - k < |inner| { assert s[i - k] == inner[i - k]; }
    }
    FindAt(u, k, '>', g);
    assert u[k..g - 2] == s[..|inner|] == inner;
  }

  lemma {:induction false} TrimIs(b: string, body: string, d: string)
    requires Blank(b) && Blank(d) && body != "" && !IsSpace(body[0]) && !IsSpace(body[|body| - 1])
    ensures Trim(b + body + d) == body
  {
    hide IsSpace;
    var s := b + body + d;
    assert s == b + (body + d) && s[0..] == s;
    SkipBlank(b, body + d, s, 0);
    assert s[|b|..] == body + d;
    RTrimIs(body, d);
  }

  lemma {:induction false} RTrimIs(body: string, d: string)
    requires Blank(d) && body != "" && !IsSpace(body[|body| - 1])
    ensures RTrim(body + d) == body
    decreases |d|
  {
    hide IsSpace;
    var s := body + d;
    if d == "" {
      assert s == body;
    } else {
      assert s[|s| - 1] == d[|d| - 1] && s[..|s| - 1] == body + d[..|d| - 1];
      RTrimIs(body, d[..|d| - 1]);
    }
  }

  lemma {:induction false} NameEndIs(name: string, rest: string)
    requires PlainName(name) && (rest == "" || !IsNameChar(rest[0]))
    ensures NameEnd(":" + name + rest, 1) == 1 + |name|
  {
    hide IsNameChar, NameEnd;
    var r := ":" + name + rest;
    assert forall i :: 0 <= i < |name| ==> r[i + 1] == name[i];
    assert rest != "" ==> r[1 + |name|] == rest[0];
    var e := NameEnd(r, 1);
    if e < 1 + |name| { NameInside(r, name, e); }
  }

  lemma {:induction false} NameInside(r: string, name: string, e: nat)
    requires PlainName(name) && 1 <= e < 1 + |name| <= |r| && r[e] == name[e - 1]
    ensures IsNameChar(r[e])
  {
  }

  /** The parser reads a figure text as the name and floor it says. */
  lemma {:induction false} ParsesFigure(body: string, name: string, floor: Option<nat>)
    requires FigureText(body, name, floor)
    ensures ParseOpen(body) == Some(OpenRest(name, floor))
    ensures body != "" && body[0] == ':' && !IsSpace(body[|body| - 1]) && '>' !in body
  {
    Fronts();
    hide IsSpace, IsNameChar, NameEnd, IsWord, IsDigit;
    if floor.None? {
      assert body == ":" + name + "";
      NameEndIs(name, "");
      assert body[1..1 + |name|] == name;
      assert body[|body| - 1] == name[|name| - 1];
      NameClean(name);
    } else {
      var tail :| FloorText(tail, floor.value) && body == ":" + name + tail;
      ParsesFloor(body, name, tail, floor.value);
    }
  }

  lemma {:induction false} NameClean(name: string)
    requires PlainName(name)
    ensures '>' !in name && '>' !in ":" + name
  {
    Fronts();
    hide IsNameChar, IsSpace;
  }

  lemma {:induction false} BlankClean(w: string)
    requires Blank(w)
    ensures '>' !in w
  {
    Fronts();
    hide IsNameChar, IsSpace;
  }

  lemma {:induction false} DigitsClean(digits: string)
    requires AllDigits(digits)
    ensures '>' !in digits
  {
  }

  lemma {:induction false} FloorParts(tail: string, k: nat) returns (w: string, digits: string)
    requires FloorText(tail, k)
    ensures Blank(w) && w != "" && digits != "" && AllDigits(digits) && ParseNat(digits) == k
    ensures tail == w + ("floor=" + digits)
  {
    hide Blank, AllDigits, ParseNat;
    w, digits :| Blank(w) && w != "" && digits != "" && AllDigits(digits) && ParseNat(digits) == k &&
      tail == w + "floor=" + digits;
  }

  lemma {:induction false} ParsesFloor(body: string, name: string, tail: string, k: nat)
    requires PlainName(name) && FloorText(tail, k) && body == ":" + name + tail
    ensures ParseOpen(body) == Some(OpenRest(name, Some(k)))
    ensures body[0] == ':' && !IsSpace(body[|body| - 1]) && '>' !in body
  {
    hide FloorText, PlainName, Blank, AllDigits, ParseNat, IsSpace, ParseOpen;
    var w, digits := FloorParts(tail, k);
    FloorPieces(body, name, w, "floor=", digits);
    ParseFloor(body, 1 + |name|, 1 + |name| + |w|, k);
    FloorClean(name, w, digits);
    assert ":" + name + tail == ":" + name + (w + "floor=" + digits) by {
      assert w + ("floor=" + digits) == w + "floor=" + digits;
    }
  }

  lemma {:induction false} FloorPieces(body: string, name: string, w: string, floor: string, digits: string)
    requires PlainName(name) && Blank(w) && w != "" && digits != "" && AllDigits(digits)
    requires |floor| == 6 && floor[0] == 'f' && body == ":" + name + (w + (floor + digits))
    ensures var e, f := 1 + |name|, 1 + |name| + |w|;
      && 1 < e < f && f + 6 < |body| && body[0] == ':' && NameEnd(body, 1) == e && SkipSpaces(body, e) == f
      && body[1..e] == name && body[f..f + 6] == floor && body[f + 6..] == digits && !IsSpace(body[|body| - 1])
  {
    hide IsSpace, IsNameChar, NameEnd, SkipSpaces, IsDigit;
    FloorPlaces(body, name, w, floor, digits);
    var rest := floor + digits;
    assert rest[0] == 'f' && (w + rest)[0] == w[0];
    BlankHas(w, 0);
    NotSpaces(digits);
    NameEndIs(name, w + rest);
    SkipBlank(w, rest, body, 1 + |name|);
    assert body[|body| - 1] == digits[|digits| - 1];
  }

  lemma {:induction false} FloorPlaces(body: string, name: string, w: string, floor: string, digits: string)
    requires |floor| == 6 && body == ":" + name + (w + (floor + digits))
    ensures var e, f := 1 + |name|, 1 + |name| + |w|;
      && f + 6 + |digits| == |body| && body[0] == ':'
      && body[1..e] == name && body[e..] == w + (floor + digits) && body[f..f + 6] == floor && body[f + 6..] == digits
  {
    var rest := floor + digits;
    assert body[0..] == body == ":" + (name + (w + rest));
    Behind(body, 0, ":", name + (w + rest));
    Behind(body, 1, name, w + rest);
    Behind(body, 1 + |name|, w, rest);
    Behind(body, 1 + |name| + |w|, floor, digits);
  }

  lemma {:induction false} BlankHas(w: string, i: nat)
    requires Blank(w) && i < |w|
    ensures IsSpace(w[i]) && !IsNameChar(w[i]) && !IsSpace('f')
  {
    Fronts();
  }

  lemma {:induction false} NotSpaces(digits: string)
    requires AllDigits(digits)
    ensures forall i :: 0 <= i < |digits| ==> !IsSpace(digits[i])
  {
    Fronts();
    hide IsSpace, IsNameChar;
  }

  lemma {:induction false} ParseFloor(body: string, e: nat, f: nat, k: nat)
    requires 1 < e < f && f + 6 < |body| && body[0] == ':' && NameEnd(body, 1) == e && SkipSpaces(body, e) == f
    requires body[f..f + 6] == "floor=" && AllDigits(body[f + 6..]) && ParseNat(body[f + 6..]) == k
    ensures ParseOpen(body) == Some(OpenRest(body[1..e], Some(k)))
  {
    hide NameEnd, SkipSpaces, ParseNat, AllDigits;
  }

  lemma {:induction false} FloorClean(name: string, w: string, digits: string)
    requires PlainName(name) && Blank(w) && AllDigits(digits)
    ensures '>' !in ":" + name + (w + "floor=" + digits)
  {
    NameClean(name);
    BlankClean(w);
    DigitsClean(digits);
    hide PlainName, Blank, AllDigits;
  }

  /** A comment is decided on what stands between its keyword and its end. */
  lemma {:induction false} CommentDecided(c: string, a: string, slash: string, inner: string, tail: string)
    requires Blank(a) && (slash == "" || slash == "/") && '>' !in inner && (inner != "" ==> !IsWord(inner[0]))
    requires c == "<!--" + a + (slash + "fig") + inner + "-->"
    ensures KeywordLen(c + tail) != 0
    ensures Classify(c + tail) == Decide(slash == "/", Trim(inner), |c|)
  {
    hide Blank, IsWord, KeywordLen, Classify, Find, Trim, Decide;
    assert !IsWord('-') by { Dash(); }
    Regrouped(a, slash, inner, tail);
    KeywordIs(a, slash, inner + "-->" + tail);
    var u, k := c + tail, 7 + |a| + |slash|;
    EndsAt(u, k, inner, tail);
    Decided(u, k, k + |inner| + 2);
    assert |c| == k + |inner| + 3;
  }

  lemma {:induction false} Dash()
    ensures !IsWord('-')
  {
  }

  lemma {:induction false} Decided(u: string, k: nat, g: nat)
    requires 0 < k == KeywordLen(u) && k + 2 <= g < |u| && Find(u, k, '>') == g && u[g - 2] == '-' && u[g - 1] == '-'
    ensures Classify(u) == Decide(IsClosing(u), Trim(u[k..g - 2]), g + 1)
  {
    hide KeywordLen, IsClosing, Trim, Decide, Find;
  }

  lemma {:induction false} OpeningPieces(c: string, name: string, floor: Option<nat>)
    returns (a: string, b: string, body: string, d: string)
    requires OpensFigure(c, name, floor)
    ensures Blank(a) && Blank(b) && Blank(d) && FigureText(body, name, floor)
    ensures c == "<!--" + a + ("" + "fig") + (b + body + d) + "-->"
  {
    hide Blank, FigureText;
    a, b, body, d :| Blank(a) && Blank(b) && Blank(d) && FigureText(body, name, floor) &&
      c == "<!--" + a + "fig" + b + body + d + "-->";
    assert "" + "fig" == "fig";
    Inner(a, b, body, d);
  }

  /** What an opening comment holds is no `>` and does not go on the keyword. */
  lemma {:induction false} InnerClean(b: string, body: string, d: string)
    requires Blank(b) && Blank(d) && body != "" && body[0] == ':' && '>' !in body
    ensures '>' !in b + body + d && b + body + d != "" && !IsWord((b + body + d)[0])
  {
    Fronts();
    BlankClean(b);
    BlankClean(d);
    if b != "" { BlankHas(b, 0); }
    hide Blank, IsSpace, IsWord, IsNameChar, IsDigit;
    assert (b + body + d)[0] == if b != "" then b[0] else ':';
  }

  /** A comment that opens a figure, whatever follows it, is recognised with its name and floor; a floor of zero
      is a problem. */
  lemma {:induction false} OpensRecognised(c: string, tail: string, name: string, floor: Option<nat>)
    requires OpensFigure(c, name, floor)
    ensures KeywordLen(c + tail) != 0
    ensures Classify(c + tail) == if floor == Some(0) then BadShape(ZeroFloor)
      else OpenShape(OpenRest(name, floor), |c|)
  {
    hide OpensFigure, Blank, FigureText, IsSpace, IsWord, KeywordLen, Classify, Trim, ParseOpen;
    var a, b, body, d := OpeningPieces(c, name, floor);
    ParsesFigure(body, name, floor);
    InnerClean(b, body, d);
    CommentDecided(c, a, "", b + body + d, tail);
    Colon();
    TrimIs(b, body, d);
  }

  lemma {:induction false} Colon()
    ensures !IsSpace(':')
  {
  }

  lemma {:induction false} Inner(a: string, b: string, body: string, d: string)
    ensures "<!--" + a + "fig" + b + body + d + "-->" == "<!--" + a + "fig" + (b + body + d) + "-->"
  {
    var x, y, z := "<!--", "fig", "-->";
    assert x + a + y + b + body + d + z == x + a + y + (b + body + d) + z;
  }

  /** So is a closing comment. */
  lemma {:induction false} ClosesRecognised(c: string, tail: string)
    requires ClosesFigure(c)
    ensures KeywordLen(c + tail) != 0 && Classify(c + tail) == CloseShape(|c|)
  {
    hide Blank, IsSpace, IsWord, KeywordLen, Classify, Trim;
    var a, b :| Blank(a) && Blank(b) && c == "<!--" + a + "/fig" + b + "-->";
    assert "/fig" == "/" + "fig";
    BlankClean(b);
    if b != "" { BlankHas(b, 0); }
    SpaceNoWord(b);
    CommentDecided(c, a, "/", b, tail);
    TrimBlank(b);
  }

  lemma {:induction false} SpaceNoWord(b: string)
    requires Blank(b)
    ensures b != "" ==> !IsWord(b[0])
  {
    Fronts();
  }

  lemma {:induction false} Regrouped(a: string, slash: string, inner: string, tail: string)
    ensures "<!--" + a + (slash + "fig") + inner + "-->" + tail == "<!--" + a + slash + "fig" + (inner + "-->" + tail)
    ensures inner + "-->" + tail != ""
    ensures (inner + "-->" + tail)[0] == if inner != "" then inner[0] else '-'
  {
    var x, y, z := "<!--", "fig", "-->";
    assert x + a + (slash + y) + inner + z + tail == x + a + slash + y + (inner + z + tail);
  }

  lemma {:induction false} TrimBlank(b: string)
    requires Blank(b)
    ensures Trim(b) == ""
  {
    hide IsSpace;
    assert b[0..] == b + "" == b;
    SkipBlank(b, "", b, 0);
    assert b[|b|..] == "";
  }

  // ----- from the shape to the comment -----

  lemma {:induction false} SkippedBlank(u: string, i: nat)
    requires i <= |u|
    ensures Blank(u[i..SkipSpaces(u, i)])
  {
    hide IsSpace;
  }

  /** What a keyword consists of. */
  lemma {:induction false} KeywordParts(u: string) returns (a: string, slash: string)
    requires KeywordLen(u) != 0
    ensures Blank(a) && slash == (if IsClosing(u) then "/" else "") &&
      u[..KeywordLen(u)] == "<!--" + a + (slash + "fig")
  {
    hide IsSpace, IsWord, SkipSpaces, Blank;
    var at := SkipSpaces(u, 4);
    SkippedBlank(u, 4);
    a := u[4..at];
    slash := if IsClosing(u) then "/" else "";
    var b := at + |slash|;
    assert u[0..4] == "<!--" && u[b..b + 3] == "fig";
    assert u[at..b] == slash;
    Joined(u, 4, at, b, b + 3);
  }

  lemma {:induction false} Joined(u: string, i: nat, j: nat, k: nat, n: nat)
    requires i <= j <= k <= n <= |u|
    ensures u[..n] == u[0..i] + u[i..j] + (u[j..k] + u[k..n])
  {
  }

  lemma {:induction false} TrimParts(s: string) returns (b: string, d: string)
    ensures Blank(b) && Blank(d) && s == b + Trim(s) + d
  {
    hide IsSpace, SkipSpaces, RTrim;
    var i := SkipSpaces(s, 0);
    SkippedBlank(s, 0);
    b := s[..i];
    assert s[0..i] == b;
    var t := s[i..];
    var r := RTrim(t);
    d := t[|r|..];
    assert s == b + t && t == r + d;
    assert b + (r + d) == b + r + d;
  }

  lemma {:induction false} ParseParts(body: string, o: OpenRest)
    requires ParseOpen(body) == Some(o)
    ensures FigureText(body, o.name, o.floor)
  {
    hide IsSpace, IsNameChar, NameEnd, SkipSpaces, ParseNat, IsDigit;
    var e := NameEnd(body, 1);
    assert body[..1] == ":";
    var name := body[1..e];
    assert PlainName(name);
    if e == |body| {
      assert body == ":" + name;
    } else {
      var f := SkipSpaces(body, e);
      SkippedBlank(body, e);
      var w, digits := body[e..f], body[f + 6..];
      assert body[f..f + 6] == "floor=";
      var tail := w + "floor=" + digits;
      assert FloorText(tail, o.floor.value);
      assert body == ":" + name + tail by { FivePieces(body, e, f); }
    }
  }

  lemma {:induction false} FivePieces(body: string, e: nat, f: nat)
    requires 1 <= e <= f && f + 6 <= |body|
    ensures body == body[..1] + body[1..e] + (body[e..f] + body[f..f + 6] + body[f + 6..])
  {
  }

  /** A marker comment that ends is decided on its inner text. */
  lemma {:induction false} DecidedBy(u: string) returns (g: nat)
    requires KeywordLen(u) != 0 && Classify(u) != BadShape(NoEnd)
    ensures KeywordLen(u) + 2 <= g < |u| && u[..g + 1] == u[..KeywordLen(u)] + u[KeywordLen(u)..g - 2] + "-->"
    ensures Classify(u) == Decide(IsClosing(u), Trim(u[KeywordLen(u)..g - 2]), g + 1)
  {
    hide KeywordLen, IsClosing, Trim, Decide;
    var k := KeywordLen(u);
    g := Find(u, k, '>');
    assert u[g - 2..g + 1] == "-->";
    assert u[..g + 1] == u[..k] + u[k..g - 2] + u[g - 2..g + 1];
  }

  /** What the scanner takes for the opening of a figure is that comment, with the name and the floor it says. */
  lemma {:induction false} OpeningIs(u: string, name: string, floor: Option<nat>, n: nat)
    requires KeywordLen(u) != 0 && Classify(u) == OpenShape(OpenRest(name, floor), n)
    ensures n <= |u| && OpensFigure(u[..n], name, floor) && floor != Some(0)
  {
    hide KeywordLen, Classify, IsClosing, Trim, ParseOpen, FigureText, Blank;
    var g := DecidedBy(u);
    var a, slash := KeywordParts(u);
    var inner := u[KeywordLen(u)..g - 2];
    var b, d := TrimParts(inner);
    ParseParts(Trim(inner), OpenRest(name, floor));
    OpenParts(u[..n], a, b, Trim(inner), d, name, floor);
  }

  lemma {:induction false} OpenParts(c: string, a: string, b: string, body: string, d: string, name: string,
      floor: Option<nat>)
    requires Blank(a) && Blank(b) && Blank(d) && FigureText(body, name, floor)
    requires c == "<!--" + a + ("" + "fig") + (b + body + d) + "-->"
    ensures OpensFigure(c, name, floor)
  {
    hide Blank, FigureText;
    assert "" + "fig" == "fig";
    Inner(a, b, body, d);
  }

  lemma {:induction false} ZeroFloorIs(u: string) returns (name: string, n: nat)
    requires KeywordLen(u) != 0 && Classify(u) == BadShape(ZeroFloor)
    ensures n <= |u| && OpensFigure(u[..n], name, Some(0))
  {
    hide KeywordLen, Classify, IsClosing, Trim, ParseOpen, FigureText, Blank;
    var g := DecidedBy(u);
    var a, slash := KeywordParts(u);
    var inner := u[KeywordLen(u)..g - 2];
    var b, d := TrimParts(inner);
    n := g + 1;
    name := ParseOpen(Trim(inner)).value.name;
    ParseParts(Trim(inner), OpenRest(name, Some(0)));
    OpenParts(u[..n], a, b, Trim(inner), d, name, Some(0));
  }

  lemma {:induction false} ClosingIs(u: string, n: nat)
    requires KeywordLen(u) != 0 && Classify(u) == CloseShape(n)
    ensures n <= |u| && ClosesFigure(u[..n])
  {
    hide KeywordLen, Classify, IsClosing, Trim, ParseOpen, Blank;
    var g := DecidedBy(u);
    var a, slash := KeywordParts(u);
    var inner := u[KeywordLen(u)..g - 2];
    var b, d := TrimParts(inner);
    BlankJoin(b, d);
    assert b + "" + d == b + d;
    assert "/" + "fig" == "/fig";
  }

  lemma {:induction false} BlankJoin(b: string, d: string)
    requires Blank(b) && Blank(d)
    ensures Blank(b + d)
  {
    hide IsSpace;
  }

  /** The scanner's verdict on a text that begins with a marker keyword, in terms of the comment alone. */
  lemma {:induction false} ShapeIff(u: string, name: string, floor: Option<nat>, n: nat)
    requires KeywordLen(u) != 0
    ensures Classify(u) == OpenShape(OpenRest(name, floor), n) <==>
      n <= |u| && OpensFigure(u[..n], name, floor) && floor != Some(0)
    ensures Classify(u) == CloseShape(n) <==> n <= |u| && ClosesFigure(u[..n])
    ensures Classify(u) == BadShape(ZeroFloor) <==>
      exists m: nat, zero :: m <= |u| && OpensFigure(u[..m], zero, Some(0))
  {
    hide KeywordLen, Classify, OpensFigure, ClosesFigure;
    if Classify(u) == OpenShape(OpenRest(name, floor), n) { OpeningIs(u, name, floor, n); }
    if Classify(u) == CloseShape(n) { ClosingIs(u, n); }
    if n <= |u| {
      assert u[..n] + u[n..] == u;
      if OpensFigure(u[..n], name, floor) { OpensRecognised(u[..n], u[n..], name, floor); }
      if ClosesFigure(u[..n]) { ClosesRecognised(u[..n], u[n..]); }
    }
    if Classify(u) == BadShape(ZeroFloor) {
      var zero, m := ZeroFloorIs(u);
    }
    if m: nat, zero :| m <= |u| && OpensFigure(u[..m], zero, Some(0)) {
      assert u[..m] + u[m..] == u;
      OpensRecognised(u[..m], u[m..], zero, Some(0));
    }
  }

  /** A marker keyword: a comment opener, white space, perhaps a slash, and the whole word. */
  ghost predicate Keyword(c: string) {
    exists a, slash :: Blank(a) && (slash == "" || slash == "/") && c == "<!--" + a + slash + "fig"
  }

  /** Where a marker comment starts. */
  lemma {:induction false} KeywordIff(u: string, k: nat)
    requires k > 0
    ensures KeywordLen(u) == k <==> k <= |u| && Keyword(u[..k]) && (k < |u| ==> !IsWord(u[k]))
  {
    hide Blank, IsWord;
    if KeywordLen(u) == k {
      var a, slash := KeywordParts(u);
      assert "<!--" + a + (slash + "fig") == "<!--" + a + slash + "fig";
      KeywordEnds(u);
    }
    if k <= |u| && Keyword(u[..k]) && (k < |u| ==> !IsWord(u[k])) {
      var a, slash :| Blank(a) && (slash == "" || slash == "/") && u[..k] == "<!--" + a + slash + "fig";
      KeywordBegins(u, a, slash, k);
    }
  }

  lemma {:induction false} KeywordEnds(u: string)
    requires KeywordLen(u) != 0
    ensures KeywordLen(u) <= |u| && (KeywordLen(u) < |u| ==> !IsWord(u[KeywordLen(u)]))
  {
    hide IsWord, SkipSpaces;
  }

  lemma {:induction false} KeywordBegins(u: string, a: string, slash: string, k: nat)
    requires Blank(a) && (slash == "" || slash == "/") && k <= |u| && u[..k] == "<!--" + a + slash + "fig"
    requires k < |u| ==> !IsWord(u[k])
    ensures KeywordLen(u) == k
  {
    Fronts();
    hide IsWord, IsSpace, KeywordLen, IsClosing, IsNameChar, IsDigit;
    assert u == u[..k] + u[k..];
    if k < |u| {
      KeywordIs(a, slash, u[k..]);
    } else {
      // a line that ends with the word is recognised as if a colon followed
      KeywordIs(a, slash, ":");
      assert u + ":" == "<!--" + a + slash + "fig" + ":";
      KeywordCut(u);
    }
  }

  lemma {:induction false} KeywordCut(u: string)
    requires KeywordLen(u + ":") == |u| > 0
    ensures KeywordLen(u) == |u|
  {
    hide IsWord, IsSpace;
    var t := u + ":";
    var at := SkipSpaces(t, 4);
    assert t[0..4] == "<!--" && |u| >= 7 && u[0..4] == t[0..4];
    var b := if t[at] == '/' then at + 1 else at;
    assert t[b..b + 3] == "fig" && b + 3 == |u|;
    assert u[b..b + 3] == t[b..b + 3];
    SkipShorter(u, 4, at);
  }

  lemma {:induction false} SkipShorter(u: string, i: nat, at: nat)
    requires i <= at < |u| && SkipSpaces(u + ":", i) == at
    ensures SkipSpaces(u, i) == at
  {
    hide IsSpace, SkipSpaces;
    var t := u + ":";
    assert forall k :: i <= k <= at ==> t[k] == u[k];
    SkipAt(u, i, at);
  }

  /** A comment that does not end: no `>` behind the keyword, or the first one is not that of `-->`. */
  lemma {:induction false} NoEndIff(u: string)
    requires KeywordLen(u) != 0
    ensures Classify(u) == BadShape(NoEnd) <==>
      !exists g :: KeywordLen(u) + 2 <= g < |u| && u[g - 2] == '-' && u[g - 1] == '-' && u[g] == '>' &&
        '>' !in u[KeywordLen(u)..g]
  {
    hide KeywordLen, IsClosing, Trim, ParseOpen;
    var k := KeywordLen(u);
    var g := Find(u, k, '>');
    assert '>' !in u[k..g] by { assert forall i :: 0 <= i < g - k ==> u[k..g][i] == u[k + i]; }
    if h :| k + 2 <= h < |u| && u[h - 2] == '-' && u[h - 1] == '-' && u[h] == '>' && '>' !in u[k..h] {
      assert forall i :: k <= i < h ==> u[i] == u[k..h][i - k];
      FindAt(u, k, '>', h);
    }
  }
}
