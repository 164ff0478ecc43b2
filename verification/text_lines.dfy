/** Splitting text at newlines, joining lines, and collapsing runs of newlines. */
module TextLines {
  predicate NoNewline(s: string) {
    '\n' !in s
  }

  ghost predicate AllNoNewline(ls: seq<string>) {
    forall i :: 0 <= i < |ls| ==> NoNewline(ls[i])
  }

  /** `split('\n')`: always at least one piece. */
  function Split(s: string): (ls: seq<string>)
    ensures ls != []
  {
    if s == "" then [""]
    else
      var rest := Split(s[1..]);
      if s[0] == '\n' then [""] + rest else [[s[0]] + rest[0]] + rest[1..]
  }

  /** `join('\n')`. */
  function Join(ls: seq<string>): string {
    if ls == [] then "" else if |ls| == 1 then ls[0] else ls[0] + "\n" + Join(ls[1..])
  }

  lemma {:induction false} SplitNoNewlines(s: string)
    ensures AllNoNewline(Split(s))
  {
    if s != "" {
      SplitNoNewlines(s[1..]);
    }
  }

  lemma {:induction false} SplitOne(s: string)
    requires NoNewline(s)
    ensures Split(s) == [s]
  {
    if s != "" {
      assert s[0] in s && forall c :: c in s[1..] ==> c in s;
      SplitOne(s[1..]);
      assert [s[0]] + s[1..] == s;
    }
  }

  /** A newline between two texts separates their lines. */
  lemma {:induction false} SplitConcat(a: string, b: string)
    ensures Split(a + "\n" + b) == Split(a) + Split(b)
  {
    var t := a + "\n" + b;
    if a == "" {
      assert t == "\n" + b && t[1..] == b;
    } else {
      assert t[1..] == a[1..] + "\n" + b;
      SplitConcat(a[1..], b);
    }
  }

  lemma {:induction false} SplitJoin(ls: seq<string>)
    requires ls != [] && AllNoNewline(ls)
    ensures Split(Join(ls)) == ls
  {
    assert NoNewline(ls[0]);
    SplitOne(ls[0]);
    if |ls| > 1 {
      assert AllNoNewline(ls[1..]) by { assert forall i :: 0 <= i < |ls| - 1 ==> ls[1..][i] == ls[i + 1]; }
      SplitJoin(ls[1..]);
      SplitConcat(ls[0], Join(ls[1..]));
    }
  }

  lemma {:induction false} JoinSplit(s: string)
    ensures Join(Split(s)) == s
  {
    if s != "" {
      JoinSplit(s[1..]);
      var rest := Split(s[1..]);
      assert s == [s[0]] + s[1..];
      if s[0] == '\n' {
        assert ([""] + rest)[1..] == rest;
      } else {
        var ls := [[s[0]] + rest[0]] + rest[1..];
        assert ls[1..] == rest[1..];
      }
    }
  }

  lemma {:induction false} JoinConcat(a: seq<string>, b: seq<string>)
    requires a != [] && b != []
    ensures Join(a + b) == Join(a) + "\n" + Join(b)
  {
    if |a| > 1 {
      assert (a + b)[1..] == a[1..] + b;
      JoinConcat(a[1..], b);
    } else {
      assert (a + b)[1..] == b;
    }
  }

  // ----- blank-line collapsing -----

  predicate StartsTriple(s: string) {
    |s| >= 3 && s[0] == '\n' && s[1] == '\n' && s[2] == '\n'
  }

  /** Three newlines in a row somewhere. */
  predicate HasTriple(s: string) {
    s != "" && (StartsTriple(s) || HasTriple(s[1..]))
  }

  /** Every run of three or more newlines becomes two. */
  function Collapse(s: string): string {
    if s == "" then ""
    else if StartsTriple(s) then Collapse(s[1..])
    else [s[0]] + Collapse(s[1..])
  }

  lemma {:induction false} CollapseShorter(s: string)
    ensures |Collapse(s)| <= |s|
    ensures HasTriple(s) ==> |Collapse(s)| < |s|
    ensures !HasTriple(s) ==> Collapse(s) == s
  {
    if s != "" {
      CollapseShorter(s[1..]);
    }
  }

  /** The leading newlines of the result are those of the text, two at most. */
  lemma {:induction false} CollapseFront(s: string)
    ensures s != "" ==> Collapse(s) != "" && Collapse(s)[0] == s[0]
    ensures |s| >= 2 && s[0] == '\n' && s[1] == '\n' ==> |Collapse(s)| >= 2 && Collapse(s)[1] == '\n'
    ensures |Collapse(s)| >= 2 && Collapse(s)[0] == '\n' && Collapse(s)[1] == '\n' ==>
      |s| >= 2 && s[0] == '\n' && s[1] == '\n'
  {
    if s != "" {
      CollapseFront(s[1..]);
    }
  }

  lemma {:induction false} CollapseNoTriple(s: string)
    ensures !HasTriple(Collapse(s))
  {
    if s != "" {
      CollapseNoTriple(s[1..]);
      CollapseFront(s[1..]);
      if !StartsTriple(s) {
        assert Collapse(s)[1..] == Collapse(s[1..]);
      }
    }
  }

  /** Collapsing only ever removes empty lines: the first line stays, and every later line of the
      result is a later line of the text. */
  lemma {:induction false} CollapseLines(s: string)
    ensures Split(Collapse(s))[0] == Split(s)[0]
    ensures forall l :: l in Split(Collapse(s))[1..] ==> l in Split(s)[1..]
  {
    if s != "" {
      CollapseLines(s[1..]);
      var rest, rest' := Split(s[1..]), Split(Collapse(s[1..]));
      FirstOrLater(rest);
      FirstOrLater(rest');
      if StartsTriple(s) {
        assert rest[0] == "" by { assert s[1..][0] == '\n'; }
        assert Split(s) == [""] + rest;
        assert Split(s)[1..] == rest;
      } else {
        assert ([s[0]] + Collapse(s[1..]))[1..] == Collapse(s[1..]);
        if s[0] == '\n' {
          assert Split(Collapse(s))[1..] == rest' && Split(s)[1..] == rest;
        } else {
          assert Split(Collapse(s))[1..] == rest'[1..] && Split(s)[1..] == rest[1..];
        }
      }
    }
  }

  lemma {:induction false} FirstOrLater(ls: seq<string>)
    requires ls != []
    ensures forall l :: l in ls <==> l == ls[0] || l in ls[1..]
  {
    assert ls == [ls[0]] + ls[1..];
  }

  lemma {:induction false} CollapseIdempotent(s: string)
    ensures Collapse(Collapse(s)) == Collapse(s)
  {
    CollapseNoTriple(s);
    CollapseShorter(Collapse(s));
  }

  // ----- texts as words between runs of newlines -----

  function Newlines(n: nat): string {
    seq(n, i => '\n')
  }

  /** Words without newlines, and how many newlines stand behind each but the last. */
  function Woven(words: seq<string>, runs: seq<nat>): string
    requires |words| == |runs| + 1
    decreases |runs|
  {
    if runs == [] then words[0] else words[0] + Newlines(runs[0]) + Woven(words[1..], runs[1..])
  }

  /** No word holds a newline, only the first and the last may be empty, and every run is of one newline at least. */
  ghost predicate Proper(words: seq<string>, runs: seq<nat>) {
    && |words| == |runs| + 1 && AllNoNewline(words)
    && (forall i :: 0 < i < |runs| ==> words[i] != "") && forall i :: 0 <= i < |runs| ==> runs[i] > 0
  }

  function AtMostTwo(runs: seq<nat>): (r: seq<nat>)
    ensures |r| == |runs| && forall i :: 0 <= i < |runs| ==> r[i] == if runs[i] > 2 then 2 else runs[i]
  {
    seq(|runs|, i requires 0 <= i < |runs| => if runs[i] > 2 then 2 else runs[i])
  }

  lemma {:induction false} ProperTail(words: seq<string>, runs: seq<nat>)
    requires Proper(words, runs) && runs != []
    ensures Proper(words[1..], runs[1..]) && NoNewline(words[0]) && runs[0] > 0
    ensures AtMostTwo(runs)[1..] == AtMostTwo(runs[1..])
    ensures |runs| > 1 ==> words[1] != ""
  {
    assert forall i :: 0 <= i < |words| - 1 ==> words[1..][i] == words[i + 1];
    assert forall i :: 0 <= i < |runs| - 1 ==> runs[1..][i] == runs[i + 1];
  }

  /** Every text is words between runs. */
  lemma {:induction false} EveryText(s: string) returns (words: seq<string>, runs: seq<nat>)
    ensures Proper(words, runs) && Woven(words, runs) == s
  {
    if s == "" {
      words, runs := [""], [];
    } else {
      words, runs := EveryText(s[1..]);
      if s[0] != '\n' {
        OneMoreChar(s, words, runs);
        words := [[s[0]] + words[0]] + words[1..];
      } else if words[0] == "" && runs != [] {
        OneMoreNewline(s, words, runs);
        runs := [runs[0] + 1] + runs[1..];
      } else {
        FirstNewline(s, words, runs);
        words, runs := [""] + words, [1] + runs;
      }
    }
  }

  lemma {:induction false} OneMoreChar(s: string, words: seq<string>, runs: seq<nat>)
    requires s != "" && s[0] != '\n' && Proper(words, runs) && Woven(words, runs) == s[1..]
    ensures var words' := [[s[0]] + words[0]] + words[1..]; Proper(words', runs) && Woven(words', runs) == s
  {
    var c, words' := s[0], [[s[0]] + words[0]] + words[1..];
    assert NoNewline(words[0]) && words'[0] == [c] + words[0] && NoNewline(words'[0]);
    assert words'[1..] == words[1..];
    assert s == [c] + s[1..];
    if runs != [] {
      assert [c] + (words[0] + Newlines(runs[0]) + Woven(words[1..], runs[1..])) ==
        [c] + words[0] + Newlines(runs[0]) + Woven(words[1..], runs[1..]);
    }
  }

  lemma {:induction false} OneMoreNewline(s: string, words: seq<string>, runs: seq<nat>)
    requires s != "" && s[0] == '\n' && Proper(words, runs) && Woven(words, runs) == s[1..]
    requires words[0] == "" && runs != []
    ensures var runs' := [runs[0] + 1] + runs[1..]; Proper(words, runs') && Woven(words, runs') == s
  {
    var runs' := [runs[0] + 1] + runs[1..];
    assert runs'[1..] == runs[1..];
    assert Newlines(runs[0] + 1) == "\n" + Newlines(runs[0]);
    var rest := Woven(words[1..], runs[1..]);
    assert s == "\n" + s[1..];
    assert "" + Newlines(runs[0] + 1) + rest == "\n" + ("" + Newlines(runs[0]) + rest);
  }

  lemma {:induction false} FirstNewline(s: string, words: seq<string>, runs: seq<nat>)
    requires s != "" && s[0] == '\n' && Proper(words, runs) && Woven(words, runs) == s[1..]
    requires words[0] != "" || runs == []
    ensures Proper([""] + words, [1] + runs) && Woven([""] + words, [1] + runs) == s
  {
    var words', runs' := [""] + words, [1] + runs;
    assert words'[1..] == words && runs'[1..] == runs;
    assert Newlines(1) == "\n" && s == "\n" + s[1..];
  }

  lemma {:induction false} CollapseWord(w: string, t: string)
    requires NoNewline(w)
    ensures Collapse(w + t) == w + Collapse(t)
  {
    if w == "" {
      assert w + t == t;
    } else {
      assert w[0] in w && forall c :: c in w[1..] ==> c in w;
      assert (w + t)[1..] == w[1..] + t;
      CollapseWord(w[1..], t);
      assert [w[0]] + (w[1..] + Collapse(t)) == w + Collapse(t);
    }
  }

  /** A run of newlines that nothing continues. */
  lemma {:induction false} CollapseRun(n: nat, t: string)
    requires t == "" || t[0] != '\n'
    ensures Collapse(Newlines(n) + t) == Newlines(if n > 2 then 2 else n) + Collapse(t)
  {
    hide Collapse, Newlines;
    RunFront(n, t);
    var s := Newlines(n) + t;
    if n > 0 {
      CollapseStep(s);
      CollapseRun(n - 1, t);
      if n <= 2 {
        assert "\n" + (Newlines(n - 1) + Collapse(t)) == "\n" + Newlines(n - 1) + Collapse(t);
      }
    }
  }

  lemma {:induction false} RunFront(n: nat, t: string)
    requires t == "" || t[0] != '\n'
    ensures n == 0 ==> Newlines(n) + t == t && forall u: string :: Newlines(0) + u == u
    ensures var s := Newlines(n) + t;
      n > 0 ==> s != "" && s[0] == '\n' && s[1..] == Newlines(n - 1) + t && (StartsTriple(s) <==> n >= 3)
    ensures n > 0 ==> Newlines(n) == "\n" + Newlines(n - 1)
  {
  }

  lemma {:induction false} CollapseStep(s: string)
    requires s != ""
    ensures Collapse(s) == if StartsTriple(s) then Collapse(s[1..]) else [s[0]] + Collapse(s[1..])
  {
    hide StartsTriple;
  }

  lemma {:induction false} WovenFront(words: seq<string>, runs: seq<nat>)
    requires Proper(words, runs) && (runs != [] ==> words[0] != "")
    ensures Woven(words, runs) == "" || Woven(words, runs)[0] != '\n'
  {
    assert NoNewline(words[0]);
    assert words[0] != "" ==> words[0][0] in words[0];
  }

  /** Collapsing keeps every word, and every run up to two newlines. */
  lemma {:induction false} CollapseWoven(words: seq<string>, runs: seq<nat>)
    requires Proper(words, runs)
    ensures Collapse(Woven(words, runs)) == Woven(words, AtMostTwo(runs))
    decreases |runs|
  {
    hide Collapse, Newlines;
    if runs == [] {
      assert NoNewline(words[0]) && words[0] + "" == words[0];
      CollapseWord(words[0], "");
      CollapseNothing();
    } else {
      ProperTail(words, runs);
      hide Proper;
      var rest := Woven(words[1..], runs[1..]);
      CollapseWoven(words[1..], runs[1..]);
      WovenFront(words[1..], runs[1..]);
      assert words[0] + Newlines(runs[0]) + rest == words[0] + (Newlines(runs[0]) + rest);
      CollapseWord(words[0], Newlines(runs[0]) + rest);
      CollapseRun(runs[0], rest);
      var n: nat := if runs[0] > 2 then 2 else runs[0];
      assert words[0] + (Newlines(n) + Collapse(rest)) == words[0] + Newlines(n) + Collapse(rest);
    }
  }

  lemma {:induction false} CollapseNothing()
    ensures Collapse("") == ""
  {
  }

  // ----- the lines that say something -----

  function NonEmpty(ls: seq<string>): seq<string> {
    if ls == [] then [] else (if ls[0] == "" then [] else [ls[0]]) + NonEmpty(ls[1..])
  }

  /** Collapsing keeps every line that is not empty, in order. */
  lemma {:induction false} CollapseKeepsLines(s: string)
    ensures NonEmpty(Split(Collapse(s))) == NonEmpty(Split(s))
    ensures Split(Collapse(s))[0] == Split(s)[0]
  {
    if s != "" {
      CollapseKeepsLines(s[1..]);
      var c, rest, rest' := s[0], Split(s[1..]), Split(Collapse(s[1..]));
      if StartsTriple(s) {
        assert rest[0] == "" by { assert s[1..][0] == '\n'; }
        assert Split(s) == [""] + rest && (["" ] + rest)[1..] == rest;
        assert [] + NonEmpty(rest) == NonEmpty(rest);
      } else {
        assert ([c] + Collapse(s[1..]))[1..] == Collapse(s[1..]);
        if c == '\n' {
          assert ([""] + rest)[1..] == rest && ([""] + rest')[1..] == rest';
        } else {
          NonEmptyFirst(rest);
          NonEmptyFirst(rest');
          var l := [c] + rest[0];
          assert ([l] + rest[1..])[1..] == rest[1..] && ([l] + rest'[1..])[1..] == rest'[1..];
        }
      }
    }
  }

  lemma {:induction false} NonEmptyFirst(ls: seq<string>)
    requires ls != []
    ensures NonEmpty(ls) == (if ls[0] == "" then [] else [ls[0]]) + NonEmpty(ls[1..])
    ensures NonEmpty(ls[1..]) == if ls[0] == "" then NonEmpty(ls) else NonEmpty(ls)[1..]
  {
    assert [] + NonEmpty(ls[1..]) == NonEmpty(ls[1..]);
  }
}
