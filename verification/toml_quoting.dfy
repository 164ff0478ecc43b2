/** Quoting for TOML, and a reader of basic strings and of arrays of them (TOML v1.0.0, "String"
    and "Array"). */
module TomlQuoting {
  import opened Wrappers

  /** `replace` of every occurrence of one character. */
  function ReplaceChar(s: string, c: char, text: string): string {
    if s == "" then "" else (if s[0] == c then text else [s[0]]) + ReplaceChar(s[1..], c, text)
  }

  /** `tomlQuote`: backslashes first, then quotes. */
  function TomlQuote(s: string): string {
    ReplaceChar(ReplaceChar(s, '\\', "\\\\"), '"', "\\\"")
  }

  /** The escape of one character. */
  function Escape(c: char): string {
    if c == '\\' then "\\\\" else if c == '"' then "\\\"" else [c]
  }

  function Escaped(s: string): string {
    if s == "" then "" else Escape(s[0]) + Escaped(s[1..])
  }

  lemma {:induction false} ReplaceConcat(a: string, b: string, c: char, text: string)
    ensures ReplaceChar(a + b, c, text) == ReplaceChar(a, c, text) + ReplaceChar(b, c, text)
  {
    if a == "" {
      assert a + b == b;
    } else {
      assert (a + b)[1..] == a[1..] + b;
      ReplaceConcat(a[1..], b, c, text);
    }
  }

  lemma {:induction false} EscapeOne(c: char)
    ensures ReplaceChar(if c == '\\' then "\\\\" else [c], '"', "\\\"") == Escape(c)
  {
    if c == '\\' {
      assert "\\\\"[1..] == "\\" && "\\"[1..] == "";
      assert ReplaceChar("\\", '"', "\\\"") == "\\";
    } else {
      assert [c][1..] == "";
    }
  }

  /** The two passes escape each character on its own. */
  lemma {:induction false} QuoteIsEscape(s: string)
    ensures TomlQuote(s) == Escaped(s)
  {
    if s != "" {
      var front := if s[0] == '\\' then "\\\\" else [s[0]];
      ReplaceConcat(front, ReplaceChar(s[1..], '\\', "\\\\"), '"', "\\\"");
      EscapeOne(s[0]);
      QuoteIsEscape(s[1..]);
      hide ReplaceChar, Escape;
    }
  }

  // ----- reading -----

  /** Control characters, the tab excepted, may not stand in a basic string. */
  predicate IsControl(c: char) {
    (c < ' ' && c != '\t') || c == '\U{7F}'
  }

  predicate Plain(s: string) {
    forall i :: 0 <= i < |s| ==> !IsControl(s[i])
  }

  /** The short escapes. The forms with a code point are not read here. */
  function Unescape(c: char): Option<char> {
    if c == '\\' || c == '"' then Some(c)
    else if c == 'b' then Some('\U{8}')
    else if c == 't' then Some('\t')
    else if c == 'n' then Some('\n')
    else if c == 'f' then Some('\U{C}')
    else if c == 'r' then Some('\r')
    else None
  }

  /** Reads a basic string behind its opening quote: its value and what follows it. */
  function ReadString(t: string): (r: Option<(string, string)>)
    ensures r.Some? ==> |r.value.1| < |t|
  {
    if t == "" then None
    else if t[0] == '"' then Some(("", t[1..]))
    else if t[0] == '\\' then
      (if |t| < 2 || Unescape(t[1]).None? then None
       else Prepend(Unescape(t[1]).value, ReadString(t[2..])))
    else if IsControl(t[0]) then None
    else Prepend(t[0], ReadString(t[1..]))
  }

  function Prepend(c: char, r: Option<(string, string)>): Option<(string, string)> {
    if r.Some? then Some(([c] + r.value.0, r.value.1)) else None
  }

  /** Reads the strings of an array behind its opening bracket. */
  function ReadArray(t: string): Option<(seq<string>, string)> {
    if t != "" && t[0] == ']' then Some(([], t[1..])) else ReadItems(t)
  }

  function ReadItems(t: string): Option<(seq<string>, string)>
    decreases |t|
  {
    if t == "" || t[0] != '"' then None
    else
      match ReadString(t[1..])
      case None => None
      case Some((item, rest)) =>
        if rest != "" && rest[0] == ']' then Some(([item], rest[1..]))
        else if |rest| > 1 && rest[0] == ',' && rest[1] == ' ' then
          (match ReadItems(rest[2..])
           case None => None
           case Some((items, after)) => Some(([item] + items, after)))
        else None
  }

  // ----- writing then reading -----

  /** A quoted text reads back as itself exactly when it holds no control character but tabs. */
  lemma {:induction false} QuotedReadsBack(s: string, rest: string)
    ensures ReadString(TomlQuote(s) + "\"" + rest) == if Plain(s) then Some((s, rest)) else None
  {
    hide TomlQuote, ReadString, Escaped;
    QuoteIsEscape(s);
    EscapedReadsBack(s, rest);
  }

  lemma {:induction false} EscapedReadsBack(s: string, rest: string)
    ensures ReadString(Escaped(s) + "\"" + rest) == if Plain(s) then Some((s, rest)) else None
  {
    var t := Escaped(s) + "\"" + rest;
    if s == "" {
      assert t == "\"" + rest && t[1..] == rest;
    } else {
      var u := Escaped(s[1..]) + "\"" + rest;
      EscapedReadsBack(s[1..], rest);
      assert t == Escape(s[0]) + u;
      hide Escaped;
      ReadOne(s[0], u);
      hide ReadString, Escape;
      PlainStep(s);
      assert s == [s[0]] + s[1..];
    }
  }

  lemma {:induction false} PlainStep(s: string)
    requires s != ""
    ensures Plain(s) <==> !IsControl(s[0]) && Plain(s[1..])
  {
    hide IsControl;
    assert forall i :: 0 < i < |s| ==> s[i] == s[1..][i - 1];
    assert forall i :: 0 <= i < |s| - 1 ==> s[1..][i] == s[i + 1];
  }

  lemma {:induction false} ReadOne(c: char, u: string)
    ensures ReadString(Escape(c) + u) == if IsControl(c) then None else Prepend(c, ReadString(u))
  {
    var t := Escape(c) + u;
    if c == '\\' || c == '"' {
      assert t[0] == '\\' && t[1] == c && t[2..] == u;
    } else {
      assert t[0] == c && t[1..] == u;
    }
  }

  /** The inside of the array the wizard writes. */
  function QuotedArgs(args: seq<string>): string {
    if args == [] then ""
    else if |args| == 1 then "\"" + TomlQuote(args[0]) + "\""
    else "\"" + TomlQuote(args[0]) + "\", " + QuotedArgs(args[1..])
  }

  ghost predicate AllPlain(args: seq<string>) {
    forall i :: 0 <= i < |args| ==> Plain(args[i])
  }

  /** The array reads back as the arguments exactly when each of them does. */
  lemma {:induction false} ArgsReadBack(args: seq<string>, rest: string)
    ensures ReadArray(QuotedArgs(args) + "]" + rest) == if AllPlain(args) then Some((args, rest)) else None
  {
    var t := QuotedArgs(args) + "]" + rest;
    if args == [] {
      assert t == "]" + rest && t[1..] == rest;
    } else {
      ItemsReadBack(args, rest);
      QuotedFront(args);
      hide QuotedArgs, ReadItems;
      assert t[0] == '"';
    }
  }

  lemma {:induction false} QuotedFront(args: seq<string>)
    requires args != []
    ensures QuotedArgs(args) != "" && QuotedArgs(args)[0] == '"'
  {
    hide TomlQuote;
  }

  lemma {:induction false} ItemsReadBack(args: seq<string>, rest: string)
    requires args != []
    ensures ReadItems(QuotedArgs(args) + "]" + rest) == if AllPlain(args) then Some((args, rest)) else None
  {
    hide TomlQuote, ReadString, Plain, ReadItems, AllPlain;
    AllPlainStep(args);
    var t := QuotedArgs(args) + "]" + rest;
    if |args| == 1 {
      LastItem(args[0], rest);
      assert t == "\"" + TomlQuote(args[0]) + "\"" + ("]" + rest);
      NonePlain();
      assert args[1..] == [] && [args[0]] == args;
    } else {
      var tail := QuotedArgs(args[1..]) + "]" + rest;
      FirstItem(args[0], tail);
      assert t == "\"" + TomlQuote(args[0]) + "\"" + (", " + tail);
      ItemsReadBack(args[1..], rest);
      assert args == [args[0]] + args[1..];
    }
  }

  lemma {:induction false} NonePlain()
    ensures AllPlain([])
  {
  }

  lemma {:induction false} LastItem(item: string, rest: string)
    ensures ReadItems("\"" + TomlQuote(item) + "\"" + ("]" + rest)) == if Plain(item) then Some(([item], rest))
      else None
  {
    hide TomlQuote, ReadString, Plain;
    var after := "]" + rest;
    var t := "\"" + TomlQuote(item) + "\"" + after;
    assert t[1..] == TomlQuote(item) + "\"" + after;
    QuotedReadsBack(item, after);
    assert after[1..] == rest;
  }

  lemma {:induction false} FirstItem(item: string, tail: string)
    ensures ReadItems("\"" + TomlQuote(item) + "\"" + (", " + tail)) ==
      if Plain(item) && ReadItems(tail).Some? then Some(([item] + ReadItems(tail).value.0, ReadItems(tail).value.1))
        else None
  {
    hide TomlQuote, ReadString, Plain;
    var after := ", " + tail;
    var t := "\"" + TomlQuote(item) + "\"" + after;
    assert t[1..] == TomlQuote(item) + "\"" + after;
    QuotedReadsBack(item, after);
    assert after[2..] == tail && after[0] == ',' && after[1] == ' ';
  }

  lemma {:induction false} AllPlainStep(args: seq<string>)
    requires args != []
    ensures AllPlain(args) <==> Plain(args[0]) && AllPlain(args[1..])
  {
    hide Plain;
    assert forall i :: 0 < i < |args| ==> args[i] == args[1..][i - 1];
    assert forall i :: 0 <= i < |args| - 1 ==> args[1..][i] == args[i + 1];
  }
}
