/** Appending the sysknife block to config.toml, and removing it again. */
module TomlBlocks {
  import opened Wrappers
  import opened TextLines
  import opened TomlQuoting

  // ----- recognising lines -----

  /** White space as JavaScript's `\s` sees it. */
  predicate IsJsSpace(c: char) {
    || '\t' <= c <= '\r' || c == ' ' || c == '\U{A0}' || c == '\U{1680}' || '\U{2000}' <= c <= '\U{200A}'
    || c == '\U{2028}' || c == '\U{2029}' || c == '\U{202F}' || c == '\U{205F}' || c == '\U{3000}' || c == '\U{FEFF}'
  }

  predicate StartsWith(s: string, prefix: string) {
    |prefix| <= |s| && s[..|prefix|] == prefix
  }

  function SkipJsSpaces(s: string): (n: nat)
    ensures n <= |s|
    ensures forall i :: 0 <= i < n ==> IsJsSpace(s[i])
    ensures n < |s| ==> !IsJsSpace(s[n])
  {
    if s != "" && IsJsSpace(s[0]) then 1 + SkipJsSpaces(s[1..]) else 0
  }

  function RTrimJs(s: string): string {
    if s != "" && IsJsSpace(s[|s| - 1]) then RTrimJs(s[..|s| - 1]) else s
  }

  const MARKER: string := "# --- sysknife (added by sysknife-setup) ---"

  /** The marker text with nothing but white space after it. */
  predicate IsMarker(line: string) {
    StartsWith(line, MARKER) && SkipJsSpaces(line[|MARKER|..]) == |line| - |MARKER|
  }

  function CloseAt(s: string): (n: nat)
    ensures n <= |s| && (n < |s| ==> s[n] == ']') && forall i :: 0 <= i < n ==> s[i] != ']'
  {
    if s == "" || s[0] == ']' then 0 else 1 + CloseAt(s[1..])
  }

  /** After the closing bracket: a second one, white space, a comment without line terminators. */
  predicate TableTail(t: string) {
    var u := if t != "" && t[0] == ']' then t[1..] else t;
    OnlyComment(u[SkipJsSpaces(u)..])
  }

  predicate OnlyComment(v: string) {
    v == "" || (v[0] == '#' && forall i :: 0 < i < |v| ==>
      v[i] != '\n' && v[i] != '\r' && v[i] != '\U{2028}' && v[i] != '\U{2029}')
  }

  /** The name between the brackets: trimmed, but never empty. */
  function BracketName(inner: string): string
    requires inner != ""
  {
    var start := SkipJsSpaces(inner);
    if start == |inner| then inner[|inner| - 1..] else RTrimJs(inner[start..])
  }

  /** The name a table header line captures, if the line is one. A second opening bracket belongs
      to the brackets when something is left for the name. */
  function TableName(line: string): Option<string> {
    var s := line[SkipJsSpaces(line)..];
    if s == "" || s[0] != '[' then None
    else
      var r := CloseAt(s[1..]);
      var inner := s[1..][..r];
      if r == |s| - 1 || inner == "" || !TableTail(s[1..][r + 1..]) then None
      else if inner[0] == '[' && |inner| > 1 then Some(BracketName(inner[1..]))
      else Some(BracketName(inner))
  }

  const PREFIX: string := "mcp_servers.sysknife"

  predicate IsOurTable(line: string) {
    TableName(line).Some? && StartsWith(TableName(line).value, PREFIX)
  }

  predicate IsOtherTable(line: string) {
    TableName(line).Some? && !StartsWith(TableName(line).value, PREFIX)
  }

  // ----- what a header line looks like -----

  ghost predicate White(s: string) {
    forall i :: 0 <= i < |s| ==> IsJsSpace(s[i])
  }

  /** A comment that runs to the end of the line, or nothing. */
  ghost predicate Comment(s: string) {
    s == "" || (s[0] == '#' && forall i :: 0 < i < |s| ==>
      s[i] != '\n' && s[i] != '\r' && s[i] != '\U{2028}' && s[i] != '\U{2029}')
  }

  /** White space, one or two opening brackets, the name, one or two closing ones, and perhaps a comment. */
  ghost predicate HeaderLine(line: string, name: string) {
    exists a, open, b, c, close, d, comment ::
      White(a) && White(b) && White(c) && White(d) && Comment(comment) && (open == "[" || open == "[[") &&
      (close == "]" || close == "]]") && line == a + open + b + name + c + close + d + comment
  }

  /** A name between brackets as it is usually written. */
  ghost predicate HeaderName(name: string) {
    name != "" && ']' !in name && name[0] != '[' && !IsJsSpace(name[0]) && !IsJsSpace(name[|name| - 1])
  }

  lemma {:induction false} SkipWhite(a: string, rest: string)
    requires White(a) && (rest == "" || !IsJsSpace(rest[0]))
    ensures SkipJsSpaces(a + rest) == |a| && (a + rest)[|a|..] == rest
  {
    hide IsJsSpace;
    var s := a + rest;
    if a == "" {
      assert s == rest;
    } else {
      assert s[1..] == a[1..] + rest && s[0] == a[0];
      SkipWhite(a[1..], rest);
    }
  }

  lemma {:induction false} RTrimWhite(name: string, c: string)
    requires White(c) && name != "" && !IsJsSpace(name[|name| - 1])
    ensures RTrimJs(name + c) == name
    decreases |c|
  {
    hide IsJsSpace;
    var s := name + c;
    if c == "" {
      assert s == name;
    } else {
      assert s[|s| - 1] == c[|c| - 1] && s[..|s| - 1] == name + c[..|c| - 1];
      RTrimWhite(name, c[..|c| - 1]);
    }
  }

  lemma {:induction false} CloseIs(inner: string, rest: string)
    requires ']' !in inner && rest != "" && rest[0] == ']'
    ensures CloseAt(inner + rest) == |inner| && (inner + rest)[..|inner|] == inner && (inner + rest)[|inner|..] == rest
  {
    if inner == "" {
      assert inner + rest == rest;
    } else {
      assert inner[0] in inner && forall c :: c in inner[1..] ==> c in inner;
      assert (inner + rest)[1..] == inner[1..] + rest;
      CloseIs(inner[1..], rest);
    }
  }

  lemma {:induction false} WhiteFacts()
    ensures !IsJsSpace('[') && !IsJsSpace(']') && !IsJsSpace('#')
  {
  }

  /** White space and a comment end a header. */
  lemma {:induction false} TailIs(close: string, d: string, comment: string)
    requires White(d) && Comment(comment) && (close == "]" || close == "]]")
    ensures var rest := close + d + comment; rest != "" && rest[0] == ']' && TableTail(rest[1..])
  {
    WhiteFacts();
    hide IsJsSpace, SkipJsSpaces, OnlyComment;
    var rest := close + d + comment;
    SkipWhite(d, comment);
    CommentIs(comment);
    if close == "]" {
      assert rest[1..] == d + comment;
      assert (d + comment) != "" ==> (d + comment)[0] == if d != "" then d[0] else '#';
      if d != "" { WhiteHas(d, 0); }
    } else {
      assert rest[1..][1..] == d + comment && rest[1..][0] == ']';
    }
  }

  lemma {:induction false} WhiteHas(d: string, i: nat)
    requires White(d) && i < |d|
    ensures IsJsSpace(d[i]) && d[i] != ']' && d[i] != '['
  {
  }

  lemma {:induction false} NameIs(b: string, name: string, c: string)
    requires White(b) && White(c) && HeaderName(name)
    ensures BracketName(b + name + c) == name && ']' !in b + name + c
  {
    hide IsJsSpace, SkipJsSpaces, RTrimJs;
    assert b + name + c == b + (name + c);
    SkipWhite(b, name + c);
    RTrimWhite(name, c);
    WhiteClean(b);
    WhiteClean(c);
  }

  lemma {:induction false} WhiteClean(b: string)
    requires White(b)
    ensures ']' !in b
  {
    forall i | 0 <= i < |b| ensures b[i] != ']' { WhiteHas(b, i); }
  }

  lemma {:induction false} HeaderPieces(line: string, name: string)
    returns (a: string, open: string, b: string, c: string, close: string, d: string, comment: string)
    requires HeaderLine(line, name)
    ensures White(a) && White(b) && White(c) && White(d) && Comment(comment) && (open == "[" || open == "[[")
    ensures close == "]" || close == "]]"
    ensures line == a + (open + (b + name + c) + (close + d + comment))
  {
    hide White, Comment;
    a, open, b, c, close, d, comment :|
      White(a) && White(b) && White(c) && White(d) && Comment(comment) && (open == "[" || open == "[[") &&
      (close == "]" || close == "]]") && line == a + open + b + name + c + close + d + comment;
    SevenPieces(a, open, b, name, c, close, d, comment);
  }

  lemma {:induction false} SevenPieces(a: string, open: string, b: string, name: string, c: string, close: string,
      d: string, comment: string)
    ensures a + open + b + name + c + close + d + comment == a + (open + (b + name + c) + (close + d + comment))
  {
    assert open + (b + name + c) == open + b + name + c;
    assert open + b + name + c + (close + d + comment) == open + b + name + c + close + d + comment;
    assert a + (open + b + name + c + close + d + comment) == a + open + b + name + c + close + d + comment;
  }

  /** A header line is recognised with its name. */
  lemma {:induction false} HeaderRead(line: string, name: string)
    requires HeaderName(name) && HeaderLine(line, name)
    ensures TableName(line) == Some(name)
  {
    hide White, Comment, IsJsSpace, SkipJsSpaces, RTrimJs, CloseAt, TableTail, BracketName, HeaderLine, TableName;
    var a, open, b, c, close, d, comment := HeaderPieces(line, name);
    var inner, rest := b + name + c, close + d + comment;
    WhiteFacts();
    NameIs(b, name, c);
    TailIs(close, d, comment);
    InnerFront(b, name, c);
    var s := open + inner + rest;
    SkipWhite(a, s);
    hide HeaderName;
    if open == "[" {
      assert s[1..] == inner + rest;
      HeaderParts(line, s, inner, inner, rest, name);
    } else {
      assert s[1..] == ("[" + inner) + rest;
      HeaderParts(line, s, "[" + inner, inner, rest, name);
    }
  }

  lemma {:induction false} InnerFront(b: string, name: string, c: string)
    requires White(b) && HeaderName(name)
    ensures b + name + c != "" && (b + name + c)[0] != '['
  {
    if b != "" { WhiteHas(b, 0); }
  }

  lemma {:induction false} HeaderParts(line: string, s: string, whole: string, inner: string, rest: string,
      name: string)
    requires line[SkipJsSpaces(line)..] == s && s != "" && s[0] == '[' && s[1..] == whole + rest
    requires rest != "" && rest[0] == ']' && TableTail(rest[1..]) && ']' !in inner && inner != "" && inner[0] != '['
    requires whole == inner || whole == "[" + inner
    requires BracketName(inner) == name
    ensures TableName(line) == Some(name)
  {
    hide SkipJsSpaces, CloseAt, TableTail, BracketName;
    assert ']' !in whole;
    CloseIs(whole, rest);
    assert s[1..][|whole| + 1..] == rest[1..];
    if whole != inner { assert whole[1..] == inner && whole[0] == '['; }
  }

  lemma {:induction false} Skipped(s: string)
    ensures White(s[..SkipJsSpaces(s)]) && s == s[..SkipJsSpaces(s)] + s[SkipJsSpaces(s)..]
  {
    hide IsJsSpace;
  }

  lemma {:induction false} RTrimmed(s: string) returns (c: string)
    ensures White(c) && s == RTrimJs(s) + c
    decreases |s|
  {
    hide IsJsSpace;
    if s != "" && IsJsSpace(s[|s| - 1]) {
      c := RTrimmed(s[..|s| - 1]);
      c := c + [s[|s| - 1]];
      assert s == s[..|s| - 1] + [s[|s| - 1]];
    } else {
      c := "";
    }
  }

  lemma {:induction false} NameFrom(inner: string) returns (b: string, c: string)
    requires inner != ""
    ensures White(b) && White(c) && inner == b + BracketName(inner) + c
  {
    hide IsJsSpace, SkipJsSpaces, RTrimJs;
    Skipped(inner);
    var start := SkipJsSpaces(inner);
    if start == |inner| {
      assert inner[..start] == inner;
      b, c := inner[..|inner| - 1], "";
      assert White(b);
      assert inner == b + inner[|inner| - 1..] + "";
    } else {
      b := inner[..start];
      c := RTrimmed(inner[start..]);
      assert b + (RTrimJs(inner[start..]) + c) == b + RTrimJs(inner[start..]) + c;
    }
  }

  lemma {:induction false} TailFrom(t: string) returns (close: string, d: string, comment: string)
    requires TableTail(t)
    ensures (close == "" || close == "]") && White(d) && Comment(comment) && t == close + d + comment
  {
    hide White, SkipJsSpaces, TableTail, Comment;
    close := if t != "" && t[0] == ']' then "]" else "";
    var u := if t != "" && t[0] == ']' then t[1..] else t;
    TailComment(t, u);
    Skipped(u);
    d, comment := u[..SkipJsSpaces(u)], u[SkipJsSpaces(u)..];
    assert t == close + u by { if close != "" { assert t[..1] == close; } }
    ThreeParts(close, d, comment);
  }

  lemma {:induction false} ThreeParts(a: string, b: string, c: string)
    ensures a + (b + c) == a + b + c
  {
  }

  lemma {:induction false} TailComment(t: string, u: string)
    requires TableTail(t) && u == if t != "" && t[0] == ']' then t[1..] else t
    ensures Comment(u[SkipJsSpaces(u)..])
  {
    hide SkipJsSpaces;
    CommentIs(u[SkipJsSpaces(u)..]);
    hide OnlyComment, Comment;
  }

  lemma {:induction false} CommentIs(v: string)
    ensures OnlyComment(v) <==> Comment(v)
  {
  }

  lemma {:induction false} HeaderShape(line: string, name: string)
    returns (a: string, s: string, r: nat, open: string, inner: string)
    requires TableName(line) == Some(name)
    ensures White(a) && line == a + s && s != "" && s[0] == '[' && r < |s| - 1 && s[1..][r] == ']'
    ensures if open == "[[" then r > 0 && s[1..][..r] == "[" + inner else open == "[" && s[1..][..r] == inner
    ensures inner != "" && BracketName(inner) == name && TableTail(s[1..][r + 1..])
  {
    hide White, SkipJsSpaces, CloseAt, TableTail, BracketName;
    Skipped(line);
    a, s := line[..SkipJsSpaces(line)], line[SkipJsSpaces(line)..];
    r := CloseAt(s[1..]);
    var whole := s[1..][..r];
    if whole[0] == '[' && |whole| > 1 {
      open, inner := "[[", whole[1..];
      assert whole == "[" + inner;
    } else {
      open, inner := "[", whole;
    }
  }

  /** And only such a line is taken for a header. */
  lemma {:induction false} HeaderSound(line: string, name: string)
    requires TableName(line) == Some(name)
    ensures HeaderLine(line, name)
  {
    hide White, Comment, TableName, TableTail, BracketName, HeaderLine;
    var a, s, r, open, inner := HeaderShape(line, name);
    var b, c := NameFrom(inner);
    var tail, d, comment := TailFrom(s[1..][r + 1..]);
    HeaderJoin(line, a, s, r, open, inner, b, name, c, tail, d, comment);
    assert "]" + "" == "]" && "]" + "]" == "]]";
    HeaderIs(line, a, open, b, name, c, "]" + tail, d, comment);
  }

  lemma {:induction false} HeaderIs(line: string, a: string, open: string, b: string, name: string, c: string,
      close: string, d: string, comment: string)
    requires White(a) && White(b) && White(c) && White(d) && Comment(comment) && (open == "[" || open == "[[")
    requires close == "]" || close == "]]"
    requires line == a + open + b + name + c + (close + d + comment)
    ensures HeaderLine(line, name)
  {
    hide White, Comment;
    assert a + open + b + name + c + (close + d + comment) == a + open + b + name + c + close + d + comment;
  }

  lemma {:induction false} HeaderJoin(line: string, a: string, s: string, r: nat, open: string, inner: string,
      b: string, name: string, c: string, tail: string, d: string, comment: string)
    requires line == a + s && s != "" && s[0] == '[' && r < |s| - 1 && s[1..][r] == ']'
    requires if open == "[[" then r > 0 && s[1..][..r] == "[" + inner else open == "[" && s[1..][..r] == inner
    requires inner == b + name + c && s[1..][r + 1..] == tail + d + comment
    ensures line == a + open + b + name + c + ("]" + tail + d + comment)
  {
    var t, rest := s[1..], tail + d + comment;
    assert t == t[..r] + ("]" + rest) && s == "[" + t;
    Reassoc(tail, d, comment);
    var whole := open + inner + ("]" + rest);
    if open == "[[" {
      assert "[" + ("[" + inner) == open + inner;
      assert s == whole by { assert "[" + (("[" + inner) + ("]" + rest)) == ("[" + ("[" + inner)) + ("]" + rest); }
    } else {
      assert s == whole by { assert "[" + (inner + ("]" + rest)) == "[" + inner + ("]" + rest); }
    }
    Reopen(a, open, b, name, c, "]" + tail + d + comment);
    assert "]" + rest == "]" + tail + d + comment;
  }

  lemma {:induction false} Reassoc(tail: string, d: string, comment: string)
    ensures "]" + (tail + d + comment) == "]" + tail + d + comment
  {
  }

  lemma {:induction false} Reopen(a: string, open: string, b: string, name: string, c: string, rest: string)
    ensures a + (open + (b + name + c) + rest) == a + open + b + name + c + rest
  {
    assert open + (b + name + c) == open + b + name + c;
  }

  /** A marker line is the marker's text, with nothing but white space behind it. */
  lemma {:induction false} MarkerIff(line: string)
    ensures IsMarker(line) <==> exists w :: White(w) && line == "# --- sysknife (added by sysknife-setup) ---" + w
  {
    hide IsJsSpace, SkipJsSpaces, White;
    var n := |MARKER|;
    if IsMarker(line) {
      var w := line[n..];
      Skipped(w);
      assert w[..|w|] == w;
      assert line == MARKER + w;
    }
    if w :| White(w) && line == MARKER + w {
      assert line[n..] == w && line[..n] == MARKER && w + "" == w;
      SkipWhite(w, "");
    }
  }

  // ----- removing -----

  /** Lines that start a stretch to drop. */
  predicate StartsDrop(line: string) {
    IsMarker(line) || IsOurTable(line)
  }

  /** Is the stretch after these lines dropped? The state is set by the last line that decides. */
  function DropAfter(ls: seq<string>, dropping: bool): bool {
    if ls == [] then dropping
    else DropAfter(ls[1..], StartsDrop(ls[0]) || (dropping && !IsOtherTable(ls[0])))
  }

  function KeptLines(ls: seq<string>, dropping: bool): seq<string> {
    if ls == [] then []
    else
      var d := StartsDrop(ls[0]) || (dropping && !IsOtherTable(ls[0]));
      (if d then [] else [ls[0]]) + KeptLines(ls[1..], d)
  }

  /** The text that removal writes. */
  function Removed(text: string): string {
    Collapse(Join(KeptLines(Split(text), false)))
  }

  class TextFile {
    var content: Option<string>

    constructor (content: Option<string>)
      ensures this.content == content
    {
      this.content := content;
    }

    /** `removeTomlSysknifeBlocks`. */
    method RemoveTomlBlocks() returns (changed: bool)
      modifies this
      ensures content == if old(content).Some? then Some(Removed(old(content).value)) else None
      ensures changed <==> content != old(content)
    {
      hide IsMarker, TableName, StartsDrop, IsOtherTable, StartsWith, Collapse, Join, Split, KeptLines;
      if content.None? {
        return false;
      }
      var original := content.value;
      assert content == Some(original);
      var lines := Split(original);
      var kept: seq<string> := [];
      var dropping := false;
      var i := 0;
      assert lines[0..] == lines;
      while i < |lines|
        invariant i <= |lines| && content == old(content)
        invariant kept + KeptLines(lines[i..], dropping) == KeptLines(lines, false)
      {
        var line := lines[i];
        assert lines[i..][0] == line && lines[i..][1..] == lines[i + 1..];
        ghost var before, sofar := dropping, kept;
        KeptStep(lines[i..], before);
        DropRule(line, before);
        if IsMarker(line) {
          dropping := true;
        } else {
          var table := TableName(line);
          if table.Some? {
            dropping := StartsWith(table.value, PREFIX);
          }
          if !dropping {
            kept := kept + [line];
          }
        }
        assert sofar + ([line] + KeptLines(lines[i + 1..], dropping)) ==
          sofar + [line] + KeptLines(lines[i + 1..], dropping);
        i := i + 1;
      }
      assert lines[i..] == [];
      KeptNone(dropping);
      assert kept + [] == kept;
      assert kept == KeptLines(lines, false);
      var next := Collapse(Join(kept));
      assert next == Removed(original);
      if next == original {
        return false;
      }
      content := Some(next);
      changed := true;
    }

    /** The config.toml step of the wizard: append the block, unless the file mentions one. */
    method InstallToml(servers: seq<(string, Server)>) returns (appended: bool)
      modifies this
      ensures appended <==> old(content).None? || !Contains(old(content).value, GUARD)
      ensures content == match old(content)
        case None => Some(TomlBlock(servers)[1..])
        case Some(existing) => if appended then Some(existing + TomlBlock(servers)) else old(content)
      ensures content == Some(Installed(old(content), servers))
    {
      var block := "\n" + MARKER + "\n" + Blocks(servers) + "\n";
      if content.Some? {
        if Contains(content.value, GUARD) {
          return false;
        }
        content := Some(content.value + block);
      } else {
        content := Some(block[1..]);
      }
      appended := true;
    }
  }

  // ----- what removal keeps -----

  lemma {:induction false} KeptStep(ls: seq<string>, dropping: bool)
    requires ls != []
    ensures var d := StartsDrop(ls[0]) || (dropping && !IsOtherTable(ls[0]));
      KeptLines(ls, dropping) == if d then KeptLines(ls[1..], d) else [ls[0]] + KeptLines(ls[1..], d)
  {
    hide StartsDrop, IsOtherTable;
  }

  lemma {:induction false} KeptNone(dropping: bool)
    ensures KeptLines([], dropping) == []
  {
  }

  /** The state the loop computes for a line. */
  lemma {:induction false} DropRule(line: string, dropping: bool)
    ensures (if IsMarker(line) then true
             else if TableName(line).Some? then StartsWith(TableName(line).value, PREFIX)
             else dropping) ==
            (StartsDrop(line) || (dropping && !IsOtherTable(line)))
  {
    hide IsMarker, TableName, StartsWith;
  }

  /** `a` can be had from `b` by leaving elements out. */
  ghost predicate Subsequence(a: seq<string>, b: seq<string>)
    decreases |b|
  {
    if a == [] then true
    else b != [] && ((a[0] == b[0] && Subsequence(a[1..], b[1..])) || Subsequence(a, b[1..]))
  }

  lemma {:induction false} KeptIsSubsequence(ls: seq<string>, dropping: bool)
    ensures Subsequence(KeptLines(ls, dropping), ls)
  {
    hide StartsDrop, IsOtherTable;
    if ls != [] {
      var d := StartsDrop(ls[0]) || (dropping && !IsOtherTable(ls[0]));
      KeptIsSubsequence(ls[1..], d);
      var k, rest := KeptLines(ls, dropping), KeptLines(ls[1..], d);
      if d {
        assert k == rest;
      } else {
        assert k[1..] == rest;
      }
    }
  }

  lemma {:induction false} KeptConcat(a: seq<string>, b: seq<string>, dropping: bool)
    ensures KeptLines(a + b, dropping) == KeptLines(a, dropping) + KeptLines(b, DropAfter(a, dropping))
  {
    hide StartsDrop, IsOtherTable;
    if a == [] {
      assert a + b == b;
    } else {
      assert (a + b)[1..] == a[1..] + b;
      KeptConcat(a[1..], b, StartsDrop(a[0]) || (dropping && !IsOtherTable(a[0])));
    }
  }

  /** The state after some lines, declaratively: a line started a drop and no other table's header
      came after it. */
  lemma {:induction false} DroppingIff(ls: seq<string>, dropping: bool)
    ensures DropAfter(ls, dropping) <==>
      (exists j :: 0 <= j < |ls| && StartsDrop(ls[j]) && forall k :: j < k < |ls| ==> !IsOtherTable(ls[k]))
      || (dropping && forall k :: 0 <= k < |ls| ==> !IsOtherTable(ls[k]))
  {
    hide StartsDrop, IsOtherTable;
    if ls != [] {
      var rest, d := ls[1..], StartsDrop(ls[0]) || (dropping && !IsOtherTable(ls[0]));
      DroppingIff(rest, d);
      assert forall k :: 0 < k < |ls| ==> ls[k] == rest[k - 1];
      if j :| 0 <= j < |rest| && StartsDrop(rest[j]) && forall k :: j < k < |rest| ==> !IsOtherTable(rest[k]) {
        assert StartsDrop(ls[j + 1]) && forall k :: j + 1 < k < |ls| ==> !IsOtherTable(ls[k]);
      }
      if j :| 0 < j < |ls| && StartsDrop(ls[j]) && forall k :: j < k < |ls| ==> !IsOtherTable(ls[k]) {
        assert forall k :: 0 <= k < |rest| ==> rest[k] == ls[k + 1];
        assert StartsDrop(rest[j - 1]) && forall k :: j - 1 < k < |rest| ==> !IsOtherTable(rest[k]);
      }
    }
  }

  /** A line is kept exactly when the state that includes it does not drop. */
  lemma {:induction false} KeptNext(ls: seq<string>, l: string, dropping: bool)
    ensures KeptLines(ls + [l], dropping)
         == KeptLines(ls, dropping) + (if DropAfter(ls + [l], dropping) then [] else [l])
  {
    hide StartsDrop, IsOtherTable;
    KeptConcat(ls, [l], dropping);
    DropConcat(ls, [l], dropping);
    assert [l][1..] == [];
  }

  lemma {:induction false} DropConcat(a: seq<string>, b: seq<string>, dropping: bool)
    ensures DropAfter(a + b, dropping) == DropAfter(b, DropAfter(a, dropping))
  {
    hide StartsDrop, IsOtherTable;
    if a == [] {
      assert a + b == b;
    } else {
      assert (a + b)[1..] == a[1..] + b;
      DropConcat(a[1..], b, StartsDrop(a[0]) || (dropping && !IsOtherTable(a[0])));
    }
  }

  /** Once dropping, only another table's header stops it. */
  lemma {:induction false} DropsAll(ls: seq<string>)
    requires forall i :: 0 <= i < |ls| ==> !IsOtherTable(ls[i])
    ensures KeptLines(ls, true) == [] && DropAfter(ls, true)
  {
    hide StartsDrop, IsOtherTable;
    if ls != [] {
      assert forall i :: 0 <= i < |ls| - 1 ==> ls[1..][i] == ls[i + 1];
      DropsAll(ls[1..]);
    }
  }

  ghost predicate Clear(ls: seq<string>) {
    forall i :: 0 <= i < |ls| ==> !StartsDrop(ls[i])
  }

  /** Every line is kept exactly when none of them starts a stretch to drop; otherwise fewer are. */
  lemma {:induction false} KeepsAllIff(ls: seq<string>)
    ensures Clear(ls) ==> KeptLines(ls, false) == ls && !DropAfter(ls, false)
    ensures !Clear(ls) ==> |KeptLines(ls, false)| < |ls|
  {
    hide StartsDrop, IsOtherTable;
    if ls != [] {
      var d := StartsDrop(ls[0]);
      assert forall i :: 0 < i < |ls| ==> ls[i] == ls[1..][i - 1];
      assert forall i :: 0 <= i < |ls| - 1 ==> ls[1..][i] == ls[i + 1];
      if d {
        KeptShorter(ls[1..], true);
      } else {
        KeepsAllIff(ls[1..]);
        assert ls == [ls[0]] + ls[1..];
      }
    }
  }

  lemma {:induction false} KeptShorter(ls: seq<string>, dropping: bool)
    ensures |KeptLines(ls, dropping)| <= |ls|
  {
    hide StartsDrop, IsOtherTable;
    if ls != [] {
      KeptShorter(ls[1..], StartsDrop(ls[0]) || (dropping && !IsOtherTable(ls[0])));
    }
  }

  lemma {:induction false} KeptClear(ls: seq<string>, dropping: bool)
    ensures forall l :: l in KeptLines(ls, dropping) ==> !StartsDrop(l) && l in ls
  {
    hide StartsDrop, IsOtherTable;
    if ls != [] {
      KeptClear(ls[1..], StartsDrop(ls[0]) || (dropping && !IsOtherTable(ls[0])));
    }
  }

  // ----- removing twice -----

  lemma {:induction false} EmptyLineClear()
    ensures !StartsDrop("")
  {
    assert MARKER[0] == '#';
    assert SkipJsSpaces("") == 0;
    assert ""[0..] == "";
  }

  /** Removal is idempotent. */
  lemma {:induction false} RemovedTwice(text: string)
    ensures Removed(Removed(text)) == Removed(text)
  {
    hide StartsDrop, IsOtherTable;
    var kept := KeptLines(Split(text), false);
    var x := Join(kept);
    KeptClear(Split(text), false);
    SplitNoNewlines(text);
    KeptNoNewline(Split(text), false);
    CollapseLines(x);
    FirstOrLater(Split(x));
    FirstOrLater(Split(Collapse(x)));
    EmptyLineClear();
    if kept != [] {
      SplitJoin(kept);
    }
    assert forall l :: l in Split(Collapse(x)) ==> !StartsDrop(l);
    KeepsAllIff(Split(Collapse(x)));
    JoinSplit(Collapse(x));
    CollapseIdempotent(x);
  }

  lemma {:induction false} KeptNoNewline(ls: seq<string>, dropping: bool)
    requires AllNoNewline(ls)
    ensures AllNoNewline(KeptLines(ls, dropping))
  {
    KeptClear(ls, dropping);
    forall i | 0 <= i < |KeptLines(ls, dropping)| ensures NoNewline(KeptLines(ls, dropping)[i]) {
      assert KeptLines(ls, dropping)[i] in ls;
    }
  }

  /** Removal, on any file: of the kept lines, put together again, the words stay as they are and a run of
      newlines between them is cut to two. */
  lemma {:induction false} RemovalKeeps(text: string, words: seq<string>, runs: seq<nat>)
    requires Proper(words, runs) && Woven(words, runs) == Join(KeptLines(Split(text), false))
    ensures Removed(text) == Woven(words, AtMostTwo(runs))
  {
    hide Proper, Woven, Collapse, KeptLines, Join, Split;
    CollapseWoven(words, runs);
  }

  /** Every kept line that says something is in the file afterwards, in order, and nothing else but empty ones. */
  lemma {:induction false} RemovalKeepsLines(text: string)
    ensures NonEmpty(Split(Removed(text))) == NonEmpty(KeptLines(Split(text), false))
  {
    hide NonEmpty, Collapse, KeptLines, Join, Split;
    var kept := KeptLines(Split(text), false);
    CollapseKeepsLines(Join(kept));
    if kept == [] {
      NothingSaid();
    } else {
      SplitNoNewlines(text);
      KeptNoNewline(Split(text), false);
      SplitJoin(kept);
    }
  }

  lemma {:induction false} NothingSaid()
    ensures NonEmpty(Split(Join([]))) == NonEmpty([])
  {
    assert [""][1..] == [];
  }

  // ----- what the wizard writes -----

  datatype Server = Server(command: string, args: seq<string>, env: seq<(string, string)>)

  function EnvLine(kv: (string, string)): string {
    kv.0 + " = \"" + TomlQuote(kv.1) + "\""
  }

  function EnvLines(env: seq<(string, string)>): seq<string> {
    seq(|env|, i requires 0 <= i < |env| => EnvLine(env[i]))
  }

  /** The lines of one server entry. */
  function ServerLines(key: string, server: Server): seq<string> {
    ["[mcp_servers." + key + "]",
     "command = \"" + TomlQuote(server.command) + "\"",
     "args = [" + QuotedArgs(server.args) + "]"]
    + (if server.env == [] then [] else ["[mcp_servers." + key + ".env]"] + EnvLines(server.env))
  }

  /** `serverToToml`. */
  method ServerToToml(key: string, server: Server) returns (text: string)
    ensures text == Join(ServerLines(key, server))
  {
    hide Join, TomlQuote, QuotedArgs, EnvLine;
    var lines := ["[mcp_servers." + key + "]",
                  "command = \"" + TomlQuote(server.command) + "\"",
                  "args = [" + QuotedArgs(server.args) + "]"];
    ghost var base := lines;
    if server.env != [] {
      lines := lines + ["[mcp_servers." + key + ".env]"];
      ghost var head := lines;
      assert head + EnvLines(server.env) == base + (["[mcp_servers." + key + ".env]"] + EnvLines(server.env));
      for i := 0 to |server.env|
        invariant lines == head + EnvLines(server.env)[..i]
      {
        lines := lines + [EnvLine(server.env[i])];
      }
      assert EnvLines(server.env)[..|server.env|] == EnvLines(server.env);
    } else {
      assert lines + [] == lines;
    }
    text := Join(lines);
  }

  /** A TOML reader gets a server's command, arguments and environment values back from its lines
      exactly when they hold no control character but tabs. */
  lemma {:induction false} ServerReadsBack(key: string, server: Server)
    ensures var ls := ServerLines(key, server);
      && |ls| == 3 + (if server.env == [] then 0 else 1 + |server.env|)
      && |ls[1]| >= 11 && (ReadString(ls[1][11..]) == Some((server.command, "")) <==> Plain(server.command))
      && |ls[2]| >= 8 && (ReadArray(ls[2][8..]) == Some((server.args, "")) <==> AllPlain(server.args))
      && forall i :: 0 <= i < |server.env| ==>
           var (name, value) := server.env[i];
           |ls[4 + i]| >= |name| + 4 &&
           (ReadString(ls[4 + i][|name| + 4..]) == Some((value, "")) <==> Plain(value))
  {
    hide TomlQuote, QuotedArgs, ReadString, ReadArray, Plain;
    var ls := ServerLines(key, server);
    var command := TomlQuote(server.command) + "\"";
    assert ls[1] == "command = \"" + command && ls[1][11..] == command + "";
    QuotedReadsBack(server.command, "");
    var args := QuotedArgs(server.args) + "]";
    assert ls[2] == "args = [" + args && ls[2][8..] == args + "";
    ArgsReadBack(server.args, "");
    forall i | 0 <= i < |server.env|
      ensures var (name, value) := server.env[i];
        |ls[4 + i]| >= |name| + 4 &&
        (ReadString(ls[4 + i][|name| + 4..]) == Some((value, "")) <==> Plain(value))
    {
      assert ls[4 + i] == EnvLine(server.env[i]);
      EnvReadsBack(server.env[i].0, server.env[i].1);
    }
  }

  lemma {:induction false} EnvReadsBack(name: string, value: string)
    ensures var line := EnvLine((name, value));
      |line| >= |name| + 4 && (ReadString(line[|name| + 4..]) == Some((value, "")) <==> Plain(value))
  {
    hide TomlQuote, ReadString, Plain;
    var quoted := TomlQuote(value) + "\"";
    var line := EnvLine((name, value));
    assert line == name + " = \"" + quoted && line[|name| + 4..] == quoted + "";
    QuotedReadsBack(value, "");
  }

  /** The entries joined by an empty line. */
  function Blocks(servers: seq<(string, Server)>): string {
    if servers == [] then ""
    else if |servers| == 1 then Join(ServerLines(servers[0].0, servers[0].1))
    else Join(ServerLines(servers[0].0, servers[0].1)) + "\n\n" + Blocks(servers[1..])
  }

  /** What is appended to config.toml. */
  function TomlBlock(servers: seq<(string, Server)>): string {
    "\n" + MARKER + "\n" + Blocks(servers) + "\n"
  }

  const GUARD: string := "[mcp_servers.sysknife"

  predicate Contains(s: string, pat: string) {
    StartsWith(s, pat) || (s != "" && Contains(s[1..], pat))
  }

  /** The file after the wizard's step. */
  function Installed(content: Option<string>, servers: seq<(string, Server)>): string {
    match content
    case None => TomlBlock(servers)[1..]
    case Some(existing) => if Contains(existing, GUARD) then existing else existing + TomlBlock(servers)
  }

  lemma {:induction false} ContainsIff(s: string, pat: string)
    ensures Contains(s, pat) <==> exists i :: 0 <= i <= |s| && StartsWith(s[i..], pat)
  {
    assert s[0..] == s;
    if s != "" {
      ContainsIff(s[1..], pat);
      assert forall i :: 0 <= i < |s| ==> s[1..][i..] == s[i + 1..];
      if i :| 0 <= i <= |s| && StartsWith(s[i..], pat) {
        if i > 0 { assert s[i..] == s[1..][i - 1..]; }
      }
      if i :| 0 <= i <= |s| - 1 && StartsWith(s[1..][i..], pat) {
        assert StartsWith(s[i + 1..], pat);
      }
    }
  }

  /** What the wizard writes mentions itself, wherever it is in the file. */
  lemma {:induction false} BlockMentioned(front: string, servers: seq<(string, Server)>)
    requires servers != [] && StartsWith(servers[0].0, "sysknife")
    ensures Contains(front + TomlBlock(servers), GUARD) && Contains(TomlBlock(servers)[1..], GUARD)
  {
    hide Join, Contains;
    var (key, server) := servers[0];
    var header := "[mcp_servers." + key + "]";
    BlocksStart(servers);
    var blocks, start := Blocks(servers), "\n" + MARKER + "\n";
    var block := TomlBlock(servers);
    assert block == start + (blocks + "\n");
    assert GUARD == "[mcp_servers." + "sysknife";
    assert header[..|GUARD|] == GUARD by { assert key[..8] == "sysknife"; }
    assert StartsWith(blocks, GUARD) by { assert blocks[..|GUARD|] == blocks[..|header|][..|GUARD|]; }
    var s, n := front + block, |front| + |start|;
    assert s[n..] == blocks + "\n" && block[1..][|start| - 1..] == blocks + "\n";
    assert (blocks + "\n")[..|GUARD|] == blocks[..|GUARD|];
    ContainsIff(s, GUARD);
    ContainsIff(block[1..], GUARD);
  }

  lemma {:induction false} BlocksStart(servers: seq<(string, Server)>)
    requires servers != []
    ensures var header := "[mcp_servers." + servers[0].0 + "]";
      |header| <= |Blocks(servers)| && Blocks(servers)[..|header|] == header
  {
    hide TomlQuote, QuotedArgs, EnvLines;
    var (key, server) := servers[0];
    var ls := ServerLines(key, server);
    assert ls[0] == "[mcp_servers." + key + "]" && |ls| >= 3;
    assert Join(ls) == ls[0] + ("\n" + Join(ls[1..]));
    hide Join;
    if |servers| > 1 {
      assert Blocks(servers) == ls[0] + ("\n" + Join(ls[1..]) + "\n\n" + Blocks(servers[1..]));
    }
  }

  /** Running the wizard again, with whatever servers, leaves the file as it is. */
  lemma {:induction false} InstalledTwice(content: Option<string>, servers: seq<(string, Server)>,
      again: seq<(string, Server)>)
    requires servers != [] && StartsWith(servers[0].0, "sysknife")
    ensures Installed(Some(Installed(content, servers)), again) == Installed(content, servers)
  {
    hide Contains, TomlBlock, GUARD;
    if content.None? {
      BlockMentioned("", servers);
    } else {
      BlockMentioned(content.value, servers);
    }
  }

  /** The same lines, one after the other. */
  function BlockLines(servers: seq<(string, Server)>): seq<string> {
    if servers == [] then []
    else if |servers| == 1 then ServerLines(servers[0].0, servers[0].1)
    else ServerLines(servers[0].0, servers[0].1) + [""] + BlockLines(servers[1..])
  }

  lemma {:induction false} BlocksAreLines(servers: seq<(string, Server)>)
    requires servers != []
    ensures BlockLines(servers) != [] && Blocks(servers) == Join(BlockLines(servers))
  {
    hide ServerLines;
    var first := ServerLines(servers[0].0, servers[0].1);
    assert first != [] by { ServerLinesSome(servers[0].0, servers[0].1); }
    if |servers| > 1 {
      var rest := BlockLines(servers[1..]);
      BlocksAreLines(servers[1..]);
      JoinConcat([""], rest);
      JoinConcat(first, [""] + rest);
      assert first + ([""] + rest) == first + [""] + rest;
      hide Join;
      assert Join([""]) == "" by { JoinBlank(); }
      assert Join(first) + "\n" + ("" + "\n" + Join(rest)) == Join(first) + "\n\n" + Join(rest);
    }
  }

  lemma {:induction false} JoinBlank()
    ensures Join([""]) == ""
  {
  }

  lemma {:induction false} ServerLinesSome(key: string, server: Server)
    ensures ServerLines(key, server) != []
  {
    hide EnvLines;
  }

  // ----- uninstall undoes install -----

  /** Fields without newlines, a key that names one of our tables, and variable names that do not
      open a bracket. */
  ghost predicate WellFormed(key: string, server: Server) {
    && NoNewline(key) && StartsWith(key, "sysknife") && NoNewline(server.command)
    && (forall i :: 0 <= i < |server.args| ==> NoNewline(server.args[i]))
    && forall i :: 0 <= i < |server.env| ==>
         NoNewline(server.env[i].0) && NoNewline(server.env[i].1) && NameLike(server.env[i].0)
  }

  /** An environment variable name starts with a letter or an underscore. */
  predicate NameLike(name: string) {
    name != "" && ('A' <= name[0] <= 'Z' || 'a' <= name[0] <= 'z' || name[0] == '_')
  }

  lemma {:induction false} EscapedNoNewline(s: string)
    requires NoNewline(s)
    ensures NoNewline(Escaped(s))
  {
    if s != "" {
      assert s[0] in s && forall c :: c in s[1..] ==> c in s;
      EscapedNoNewline(s[1..]);
    }
  }

  lemma {:induction false} QuoteNoNewline(s: string)
    requires NoNewline(s)
    ensures NoNewline(TomlQuote(s))
  {
    hide TomlQuote, Escaped;
    QuoteIsEscape(s);
    EscapedNoNewline(s);
  }

  lemma {:induction false} ArgsNoNewline(args: seq<string>)
    requires forall i :: 0 <= i < |args| ==> NoNewline(args[i])
    ensures NoNewline(QuotedArgs(args))
  {
    hide TomlQuote;
    if args != [] {
      QuoteNoNewline(args[0]);
      assert forall i :: 0 <= i < |args| - 1 ==> args[1..][i] == args[i + 1];
      ArgsNoNewline(args[1..]);
    }
  }

  /** A line whose first character is neither white space nor a bracket is no table header. */
  lemma {:induction false} NotTable(line: string)
    requires line != "" && !IsJsSpace(line[0]) && line[0] != '['
    ensures !IsOtherTable(line)
  {
    assert SkipJsSpaces(line) == 0;
    assert line[0..] == line;
    assert TableName(line) == None;
    hide TableName;
  }

  lemma {:induction false} PrefixNoClose(rest: string)
    ensures CloseAt(PREFIX + rest) >= |PREFIX|
  {
    assert PREFIX == ['m','c','p','_','s','e','r','v','e','r','s','.','s','y','s','k','n','i','f','e'];
    assert forall i :: 0 <= i < |PREFIX| ==> (PREFIX + rest)[i] == PREFIX[i] && PREFIX[i] != ']';
  }

  /** A header that starts with our prefix is never another table. */
  lemma {:induction false} OurHeader(rest: string)
    ensures !IsOtherTable("[" + PREFIX + rest)
  {
    var line := "[" + PREFIX + rest;
    assert !IsJsSpace(line[0]) && line[0] == '[';
    assert SkipJsSpaces(line) == 0 && line[0..] == line;
    assert line[1..] == PREFIX + rest;
    PrefixNoClose(rest);
    hide CloseAt, TableTail, BracketName, SkipJsSpaces, IsJsSpace;
    var r := CloseAt(PREFIX + rest);
    PrefixTrim((PREFIX + rest)[..r]);
  }

  lemma {:induction false} PrefixTrim(inner: string)
    requires StartsWith(inner, PREFIX)
    ensures inner != "" && inner[0] != '[' && StartsWith(BracketName(inner), PREFIX)
  {
    assert PREFIX == ['m','c','p','_','s','e','r','v','e','r','s','.','s','y','s','k','n','i','f','e'];
    assert inner[0] == inner[..|PREFIX|][0] == 'm';
    assert SkipJsSpaces(inner) == 0;
    assert inner[0..] == inner;
    RTrimKeeps(inner, |PREFIX|);
  }

  lemma {:induction false} RTrimKeeps(s: string, n: nat)
    requires 0 < n <= |s| && s[n - 1] == 'e'
    ensures n <= |RTrimJs(s)| <= |s| && RTrimJs(s) == s[..|RTrimJs(s)|]
  {
    if IsJsSpace(s[|s| - 1]) {
      RTrimKeeps(s[..|s| - 1], n);
    }
  }

  /** Every written line stays inside the dropped stretch and holds no newline. */
  ghost predicate Droppable(line: string) {
    NoNewline(line) && !IsOtherTable(line)
  }

  lemma {:induction false} ServerLinesDroppable(key: string, server: Server)
    requires WellFormed(key, server)
    ensures forall i :: 0 <= i < |ServerLines(key, server)| ==> Droppable(ServerLines(key, server)[i])
  {
    hide IsOtherTable, TomlQuote, QuotedArgs, StartsWith;
    HeaderDroppable(key, "]");
    HeaderDroppable(key, ".env]");
    QuoteNoNewline(server.command);
    FieldDroppable("command = \"", TomlQuote(server.command), "\"");
    ArgsNoNewline(server.args);
    FieldDroppable("args = [", QuotedArgs(server.args), "]");
    forall i | 0 <= i < |server.env| ensures Droppable(EnvLine(server.env[i])) {
      QuoteNoNewline(server.env[i].1);
      FieldDroppable(server.env[i].0 + " = \"", TomlQuote(server.env[i].1), "\"");
    }
    hide Droppable, EnvLine, WellFormed;
  }

  lemma {:induction false} FieldDroppable(head: string, middle: string, tail: string)
    requires NameLike(head) && NoNewline(head) && NoNewline(middle) && NoNewline(tail)
    ensures Droppable(head + middle + tail)
  {
    var line := head + middle + tail;
    assert line[0] == head[0];
    NotTable(line);
  }

  lemma {:induction false} HeaderDroppable(key: string, tail: string)
    requires StartsWith(key, "sysknife") && NoNewline(key) && NoNewline(tail)
    ensures Droppable("[mcp_servers." + key + tail)
  {
    hide IsOtherTable;
    var rest := key[|"sysknife"|..] + tail;
    assert key == "sysknife" + key[|"sysknife"|..];
    assert "[mcp_servers." + key + tail == "[" + PREFIX + rest;
    OurHeader(rest);
  }

  lemma {:induction false} BlockLinesDroppable(servers: seq<(string, Server)>)
    requires forall i :: 0 <= i < |servers| ==> WellFormed(servers[i].0, servers[i].1)
    ensures forall i :: 0 <= i < |BlockLines(servers)| ==> Droppable(BlockLines(servers)[i])
  {
    hide WellFormed, ServerLines;
    if servers != [] {
      assert WellFormed(servers[0].0, servers[0].1);
      ServerLinesDroppable(servers[0].0, servers[0].1);
      if |servers| > 1 {
        assert forall i :: 0 <= i < |servers| - 1 ==> servers[1..][i] == servers[i + 1];
        BlockLinesDroppable(servers[1..]);
        BlankDroppable();
      }
      hide Droppable;
    }
  }

  lemma {:induction false} BlankDroppable()
    ensures Droppable("")
  {
  }

  lemma {:induction false} MarkerLine()
    ensures NoNewline(MARKER) && IsMarker(MARKER)
  {
    assert MARKER[|MARKER|..] == "";
    assert MARKER[..|MARKER|] == MARKER;
  }

  /** Removing from what the wizard appended keeps exactly what removing from the file alone
      keeps. */
  lemma {:induction false} AppendedKept(existing: string, servers: seq<(string, Server)>)
    requires servers != [] && forall i :: 0 <= i < |servers| ==> WellFormed(servers[i].0, servers[i].1)
    ensures KeptLines(Split(existing + TomlBlock(servers)), false) == KeptLines(Split(existing), false)
  {
    hide KeptLines, WellFormed, TomlBlock, IsOtherTable;
    AddedKept(existing, servers, "");
    assert existing + TomlBlock(servers) + "" == existing + TomlBlock(servers);
    BlankDroppable();
    SplitOne("");
    assert [""][1..] == [] && FromOtherTable([""]) == [];
    KeptNone(false);
    assert KeptLines(Split(existing), false) + [] == KeptLines(Split(existing), false);
  }

  /** Uninstalling gives the file back exactly when it has no marker line and no sysknife table
      of its own and no three newlines in a row. */
  lemma {:induction false} UninstallRestoresIff(existing: string, servers: seq<(string, Server)>)
    requires servers != [] && forall i :: 0 <= i < |servers| ==> WellFormed(servers[i].0, servers[i].1)
    ensures Removed(existing + TomlBlock(servers)) == existing <==> Clear(Split(existing)) && !HasTriple(existing)
  {
    hide Split, KeptLines, Clear, WellFormed, TomlBlock, Join, Collapse;
    AppendedKept(existing, servers);
    var ls := Split(existing);
    var kept := KeptLines(ls, false);
    KeepsAllIff(ls);
    JoinSplit(existing);
    CollapseShorter(Join(kept));
    if !Clear(ls) {
      FewerLines(ls, kept, existing);
    }
  }

  // ----- text that was added behind the block -----

  /** The lines from the first header of another table on. */
  function FromOtherTable(ls: seq<string>): seq<string> {
    if ls == [] || IsOtherTable(ls[0]) then ls else FromOtherTable(ls[1..])
  }

  lemma {:induction false} OtherStartsNone(line: string)
    requires IsOtherTable(line)
    ensures !StartsDrop(line)
  {
    hide StartsWith, RTrimJs, CloseAt, TableTail, BracketName;
    assert MARKER[0] == '#' && !IsJsSpace('#');
    if IsMarker(line) {
      MarkerNoTable(line);
    }
  }

  lemma {:induction false} MarkerNoTable(line: string)
    requires IsMarker(line)
    ensures TableName(line) == None
  {
    assert line[0] == line[..|MARKER|][0] == '#';
    assert SkipJsSpaces(line) == 0;
    assert line[0..] == line;
  }

  /** A dropped stretch ends at the first header of another table. */
  lemma {:induction false} DropsToTable(ls: seq<string>)
    ensures KeptLines(ls, true) == KeptLines(FromOtherTable(ls), false)
  {
    hide StartsDrop, IsOtherTable;
    if ls != [] {
      if IsOtherTable(ls[0]) {
        OtherStartsNone(ls[0]);
      } else {
        DropsToTable(ls[1..]);
        assert [] + KeptLines(ls[1..], true) == KeptLines(ls[1..], true);
      }
    }
  }

  lemma {:induction false} AddedLines(existing: string, servers: seq<(string, Server)>, added: string)
    requires servers != [] && forall i :: 0 <= i < |servers| ==> WellFormed(servers[i].0, servers[i].1)
    ensures Split(existing + TomlBlock(servers) + added) ==
      Split(existing) + ([MARKER] + BlockLines(servers) + Split(added))
  {
    hide Split, Join, BlockLines, WellFormed, Blocks;
    BlocksAreLines(servers);
    BlockLinesDroppable(servers);
    var blocks := Blocks(servers);
    SplitConcat(existing, MARKER + "\n" + blocks + "\n" + added);
    assert existing + TomlBlock(servers) + added == existing + "\n" + (MARKER + "\n" + blocks + "\n" + added);
    SplitConcat(MARKER, blocks + "\n" + added);
    assert MARKER + "\n" + (blocks + "\n" + added) == MARKER + "\n" + blocks + "\n" + added;
    SplitConcat(blocks, added);
    SplitJoin(BlockLines(servers));
    MarkerLine();
    SplitOne(MARKER);
    assert [MARKER] + (BlockLines(servers) + Split(added)) == [MARKER] + BlockLines(servers) + Split(added);
  }

  /** When text was added behind the block, removal keeps of the old file what it keeps without the block, and
      of the added text what it keeps from the first header of another table on: the lines before that are
      lost with the block. */
  lemma {:induction false} AddedKept(existing: string, servers: seq<(string, Server)>, added: string)
    requires servers != [] && forall i :: 0 <= i < |servers| ==> WellFormed(servers[i].0, servers[i].1)
    ensures KeptLines(Split(existing + TomlBlock(servers) + added), false) ==
      KeptLines(Split(existing), false) + KeptLines(FromOtherTable(Split(added)), false)
  {
    hide Split, BlockLines, WellFormed, IsMarker, IsOurTable, IsOtherTable, TomlBlock, FromOtherTable;
    AddedLines(existing, servers, added);
    BlockLinesDroppable(servers);
    MarkerLine();
    var body := BlockLines(servers);
    var behind := [MARKER] + body + Split(added);
    assert behind == [MARKER] + (body + Split(added));
    assert behind[0] == MARKER && behind[1..] == body + Split(added);
    KeptConcat(Split(existing), behind, false);
    KeptConcat(body, Split(added), true);
    DropsAll(body);
    DropsToTable(Split(added));
    hide KeptLines;
    KeptStep(behind, DropAfter(Split(existing), false));
    assert [] + KeptLines(Split(added), true) == KeptLines(Split(added), true);
  }

  /** So every added line is kept exactly when the added text begins with another table's header and holds
      nothing of ours. */
  lemma {:induction false} AddedSurvivesIff(existing: string, servers: seq<(string, Server)>, added: string)
    requires servers != [] && forall i :: 0 <= i < |servers| ==> WellFormed(servers[i].0, servers[i].1)
    ensures KeptLines(Split(existing + TomlBlock(servers) + added), false) ==
        KeptLines(Split(existing), false) + Split(added)
      <==> IsOtherTable(Split(added)[0]) && Clear(Split(added))
  {
    hide Split, WellFormed, IsMarker, IsOurTable, IsOtherTable, StartsDrop, TomlBlock, KeptLines, Clear;
    AddedKept(existing, servers, added);
    var ls, rest := Split(added), FromOtherTable(Split(added));
    var kept, a := KeptLines(rest, false), KeptLines(Split(existing), false);
    if a + kept == a + ls {
      assert kept == (a + kept)[|a|..] == (a + ls)[|a|..] == ls;
    }
    FromShorter(ls);
    KeptShorter(rest, false);
    KeepsAllIff(rest);
  }

  lemma {:induction false} FromShorter(ls: seq<string>)
    requires ls != []
    ensures IsOtherTable(ls[0]) ==> FromOtherTable(ls) == ls
    ensures !IsOtherTable(ls[0]) ==> |FromOtherTable(ls)| < |ls|
  {
    hide IsOtherTable;
    if |ls| > 1 {
      FromShorter(ls[1..]);
    }
  }

  /** A remark that was written behind the block is lost with it. */
  lemma {:induction false} RemarkIsLost(existing: string, servers: seq<(string, Server)>)
    requires servers != [] && forall i :: 0 <= i < |servers| ==> WellFormed(servers[i].0, servers[i].1)
    ensures KeptLines(Split(existing + TomlBlock(servers) + "# mine\n"), false) == KeptLines(Split(existing), false)
  {
    hide KeptLines, WellFormed, TomlBlock, IsOtherTable, Split;
    AddedKept(existing, servers, "# mine\n");
    BlankDroppable();
    NotTable("# mine");
    SplitOne("# mine");
    SplitOne("");
    SplitConcat("# mine", "");
    assert "# mine" + "\n" + "" == "# mine\n";
    var ls := ["# mine"] + [""];
    assert ls[1..] == [""] && [""][1..] == [];
    assert FromOtherTable([""]) == [] && FromOtherTable(ls) == [];
    KeptNone(false);
    assert KeptLines(Split(existing), false) + [] == KeptLines(Split(existing), false);
  }

  function CountNewlines(s: string): nat {
    if s == "" then 0 else CountNewlines(s[1..]) + (if s[0] == '\n' then 1 else 0)
  }

  lemma {:induction false} SplitCount(s: string)
    ensures |Split(s)| == CountNewlines(s) + 1
  {
    if s != "" { SplitCount(s[1..]); }
  }

  lemma {:induction false} CollapseCount(s: string)
    ensures CountNewlines(Collapse(s)) <= CountNewlines(s)
  {
    if s != "" {
      CollapseCount(s[1..]);
      if !StartsTriple(s) { assert Collapse(s)[1..] == Collapse(s[1..]); }
    }
  }

  /** A file that loses a line is not the file it was. */
  lemma {:induction false} FewerLines(ls: seq<string>, kept: seq<string>, text: string)
    requires ls == Split(text) && kept == KeptLines(ls, false) && |kept| < |ls|
    ensures Collapse(Join(kept)) != text
  {
    hide Split, KeptLines, Join, Collapse, CountNewlines;
    SplitCount(text);
    if kept != [] {
      SplitNoNewlines(text);
      KeptNoNewline(ls, false);
      SplitJoin(kept);
      SplitCount(Join(kept));
      CollapseCount(Join(kept));
    } else {
      NothingKept(ls, text);
    }
  }

  lemma {:induction false} EmptyKept()
    ensures KeptLines(Split(""), false) != []
  {
    hide StartsDrop, IsOtherTable;
    EmptyLineClear();
    KeepsAllIff([""]);
  }

  lemma {:induction false} NothingKept(ls: seq<string>, text: string)
    requires ls == Split(text) && KeptLines(ls, false) == []
    ensures Collapse(Join([])) == "" != text
  {
    hide KeptLines, Split;
    EmptyKept();
  }
}
