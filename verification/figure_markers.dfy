/** The figure-marker grammar: lines, fences, inline code spans, marker tokens,
    and the pairing of opening with closing tokens. */
module FigureMarkers {
  import opened Decimal
  import opened Wrappers

  // ----- character classes -----

  /** Whitespace as Python's `\s` and `str.strip` see it. */
  predicate IsSpace(c: char) {
    || '\t' <= c <= '\r'
    || '\U{1C}' <= c <= ' '
    || c == '\U{85}' || c == '\U{A0}' || c == '\U{1680}'
    || '\U{2000}' <= c <= '\U{200A}'
    || c == '\U{2028}' || c == '\U{2029}' || c == '\U{202F}' || c == '\U{205F}' || c == '\U{3000}'
  }

  predicate IsLetter(c: char) { 'a' <= c <= 'z' || 'A' <= c <= 'Z' }

  /** Word characters for `\b`; letters outside ASCII are not word characters here. */
  predicate IsWord(c: char) { IsLetter(c) || IsDigit(c) || c == '_' }

  predicate IsNameChar(c: char) { IsWord(c) || c == '.' || c == ':' || c == '-' }

  /** The line boundaries of `str.splitlines`. */
  predicate IsBreak(c: char) {
    || '\n' <= c <= '\r'
    || '\U{1C}' <= c <= '\U{1E}'
    || c == '\U{85}' || c == '\U{2028}' || c == '\U{2029}'
  }

  // ----- lines -----

  /** Is `t[0]` the last character of a line? A carriage return before a newline is not. */
  predicate EndsLine(t: string)
    requires t != ""
  {
    IsBreak(t[0]) && !(t[0] == '\r' && |t| > 1 && t[1] == '\n')
  }

  /** Length of the first line of `t`, its terminator included. */
  function LineLen(t: string): (n: nat)
    ensures n <= |t|
    ensures t != "" ==> n > 0
  {
    if t == "" then 0
    else if EndsLine(t) then 1
    else 1 + LineLen(t[1..])
  }

  // ----- scanning helpers -----

  predicate At(s: string, i: nat, lit: string) {
    i + |lit| <= |s| && s[i..i + |lit|] == lit
  }

  function SkipSpaces(s: string, i: nat): (j: nat)
    requires i <= |s|
    ensures i <= j <= |s|
    ensures forall k :: i <= k < j ==> IsSpace(s[k])
    ensures j < |s| ==> !IsSpace(s[j])
    decreases |s| - i
  {
    if i < |s| && IsSpace(s[i]) then SkipSpaces(s, i + 1) else i
  }

  function RTrim(s: string): (r: string)
    ensures |r| <= |s| && r == s[..|r|]
    ensures forall k :: |r| <= k < |s| ==> IsSpace(s[k])
  {
    if s != "" && IsSpace(s[|s| - 1]) then RTrim(s[..|s| - 1]) else s
  }

  function Trim(s: string): string {
    RTrim(s[SkipSpaces(s, 0)..])
  }

  /** First position of `c` at or after `i`, or the length. */
  function Find(s: string, i: nat, c: char): (j: nat)
    requires i <= |s|
    ensures i <= j <= |s|
    ensures forall k :: i <= k < j ==> s[k] != c
    ensures j < |s| ==> s[j] == c
    decreases |s| - i
  {
    if i < |s| && s[i] != c then Find(s, i + 1, c) else i
  }

  // ----- code -----

  /** Leading whitespace, then three backticks or three tildes. */
  predicate IsFence(line: string) {
    var k := SkipSpaces(line, 0);
    At(line, k, "```") || At(line, k, "~~~")
  }

  /** Does `s` hold an odd number of backticks? */
  predicate OddTicks(s: string) {
    s != "" && ((s[0] == '`') != OddTicks(s[1..]))
  }

  // ----- marker tokens -----

  // Length of the keyword (a comment opener, optional spaces, an optional slash and the
  // whole word "fig") at the front of `u`, or 0 when there is none.
  function KeywordLen(u: string): (e: nat)
    ensures e != 0 ==> 7 <= e <= |u| && u[0] == '<'
  {
    if !At(u, 0, "<!--") then 0
    else
      var a := SkipSpaces(u, 4);
      var b := if a < |u| && u[a] == '/' then a + 1 else a;
      if At(u, b, "fig") && (b + 3 < |u| ==> !IsWord(u[b + 3])) then b + 3 else 0
  }

  predicate IsClosing(u: string)
    requires KeywordLen(u) != 0
  {
    var a := SkipSpaces(u, 4);
    a < |u| && u[a] == '/'
  }

  /** Longest run of name characters from `i`. */
  function NameEnd(s: string, i: nat): (j: nat)
    requires i <= |s|
    ensures i <= j <= |s|
    ensures forall k :: i <= k < j ==> IsNameChar(s[k])
    ensures j < |s| ==> !IsNameChar(s[j])
    decreases |s| - i
  {
    if i < |s| && IsNameChar(s[i]) then NameEnd(s, i + 1) else i
  }

  datatype OpenRest = OpenRest(name: string, floor: Option<nat>)

  /** A colon, a name, and optionally spaces and `floor=` with digits: the stripped rest
      of an opening token. */
  function ParseOpen(r: string): Option<OpenRest> {
    if r == "" || r[0] != ':' then None
    else
      var e := NameEnd(r, 1);
      if e == 1 then None
      else if e == |r| then Some(OpenRest(r[1..e], None))
      else
        var f := SkipSpaces(r, e);
        if f > e && At(r, f, "floor=") && f + 6 < |r| && AllDigits(r[f + 6..])
        then Some(OpenRest(r[1..e], Some(ParseNat(r[f + 6..]))))
        else None
  }

  datatype ProblemKind =
    | InFence | NoEnd | BadClose | BadOpen | ZeroFloor
    | Nested(openedOn: nat) | CloseWithoutOpen | SpansLines | NeverClosed

  datatype Problem = Problem(line: nat, kind: ProblemKind)

  datatype Token =
    | Open(name: string, floor: Option<nat>, start: nat, end: nat, line: nat)
    | Close(start: nat, end: nat, line: nat)

  /** What one start of a marker comment turns out to be. */
  datatype Item = Tok(token: Token) | Bad(problem: Problem)

  /** A marker comment on its own, before its position is known. */
  datatype Shape = OpenShape(rest: OpenRest, len: nat) | CloseShape(len: nat) | BadShape(kind: ProblemKind)

  /** What a token of length `len` with this stripped inner text is. */
  function Decide(closing: bool, rest: string, len: nat): Shape {
    if closing then (if rest != "" then BadShape(BadClose) else CloseShape(len))
    else
      match ParseOpen(rest)
      case None => BadShape(BadOpen)
      case Some(o) => if o.floor == Some(0) then BadShape(ZeroFloor) else OpenShape(o, len)
  }

  /** What the keyword at the front of `u` introduces: the token runs to the first `>`, which
      must close the comment. */
  function Classify(u: string): Shape
    requires KeywordLen(u) != 0
  {
    var k := KeywordLen(u);
    var g := Find(u, k, '>');
    if g == |u| || g < k + 2 || u[g - 2] != '-' || u[g - 1] != '-' then BadShape(NoEnd)
    else Decide(IsClosing(u), Trim(u[k..g - 2]), g + 1)
  }

  /** The item at the front of `u`, the rest of a line from offset `at` on. */
  function ItemAt(u: string, at: nat, lineno: nat): Item
    requires KeywordLen(u) != 0
  {
    match Classify(u)
    case OpenShape(o, n) => Tok(Open(o.name, o.floor, at, at + n, lineno))
    case CloseShape(n) => Tok(Close(at, at + n, lineno))
    case BadShape(kind) => Bad(Problem(lineno, kind))
  }

  /** Does a marker comment start at the front of `u`, outside inline code? Code spans pair
      backticks left to right, so a position that holds no backtick is inside one exactly
      when the count before it is odd and another backtick follows. */
  predicate Starts(u: string, odd: bool) {
    KeywordLen(u) != 0 && !(odd && '`' in u)
  }

  /** The item that starts at the front of `u`, if any. */
  function Here(u: string, odd: bool, at: nat, lineno: nat): seq<Item> {
    if Starts(u, odd) then [ItemAt(u, at, lineno)] else []
  }

  /** The items that start in the first `n` characters of `u`, which lies at offset `at` of an
      unfenced line's text and has an odd number of backticks before it iff `odd`. */
  function Scan(u: string, n: nat, odd: bool, at: nat, lineno: nat): seq<Item>
    requires n <= |u|
    decreases n
  {
    if n == 0 then []
    else Here(u, odd, at, lineno) + Scan(u[1..], n - 1, odd != (u[0] == '`'), at + 1, lineno)
  }

  /** Is there a marker keyword anywhere in the line? */
  predicate HasStart(s: string) {
    exists i :: 0 <= i < |s| && KeywordLen(s[i..]) != 0
  }

  /** The items of one line, given the fence state before it. */
  function LineItems(line: string, at: nat, lineno: nat, inFence: bool): seq<Item> {
    if IsFence(line) then []
    else if inFence then (if HasStart(line) then [Bad(Problem(lineno, InFence))] else [])
    else Scan(line, |line|, false, at, lineno)
  }

  /** The items of `t`, the text from a line start at offset `at` on. */
  function Items(t: string, at: nat, lineno: nat, inFence: bool): seq<Item> {
    if t == "" then []
    else
      var n := LineLen(t);
      LineItems(t[..n], at, lineno, inFence) + Items(t[n..], at + n, lineno + 1, inFence != IsFence(t[..n]))
  }

  // ----- pairing -----

  /** One well-formed marker: where it sits and what it currently says. */
  datatype Marker = Marker(name: string, floor: Option<nat>, start: nat, end: nat,
                           valueStart: nat, valueEnd: nat, line: nat, value: string)

  function Tokens(items: seq<Item>): seq<Token> {
    if items == [] then []
    else (if items[0].Tok? then [items[0].token] else []) + Tokens(items[1..])
  }

  function Bads(items: seq<Item>): seq<Problem> {
    if items == [] then []
    else (if items[0].Bad? then [items[0].problem] else []) + Bads(items[1..])
  }

  /** Python slicing inside the text: empty when the bounds cross. */
  function Slice(text: string, a: nat, b: nat): string {
    if a <= b <= |text| then text[a..b] else ""
  }

  function MarkerOf(text: string, open: Token, close: Token): Marker
    requires open.Open? && close.Close?
  {
    Marker(open.name, open.floor, open.start, close.end, open.end, close.start, open.line,
           Slice(text, open.end, close.start))
  }

  datatype Found = Found(markers: seq<Marker>, problems: seq<Problem>)

  /** Pair the tokens left to right, carrying the opening token still waiting for its close. */
  function PairUp(text: string, tokens: seq<Token>, pending: Option<Token>): Found
    requires pending.Some? ==> pending.value.Open?
  {
    if tokens == [] then
      Found([], if pending.Some? then [Problem(pending.value.line, NeverClosed)] else [])
    else
      var t, rest := tokens[0], tokens[1..];
      match t
      case Open(_, _, _, _, line) =>
        var f := PairUp(text, rest, Some(t));
        if pending.Some? then Found(f.markers, [Problem(line, Nested(pending.value.line))] + f.problems) else f
      case Close(_, _, line) =>
        var f := PairUp(text, rest, None);
        if pending.None? then Found(f.markers, [Problem(line, CloseWithoutOpen)] + f.problems)
        else
          var m := MarkerOf(text, pending.value, t);
          if '\n' in m.value then Found(f.markers, [Problem(m.line, SpansLines)] + f.problems)
          else Found([m] + f.markers, f.problems)
  }

  function FindMarkers(text: string): Found {
    var items := Items(text, 0, 1, false);
    var f := PairUp(text, Tokens(items), None);
    Found(f.markers, Bads(items) + f.problems)
  }
}
