/** How the scanner reacts to replacing one marker's value: the same items come back, the
    later ones moved. */
module FigureScan {
  import opened FigureMarkers

  // ----- moved items -----

  ghost predicate Moved(a: Item, b: Item, d: int) {
    match (a, b)
    case (Tok(Open(n, f, s, e, l)), Tok(Open(n', f', s', e', l'))) =>
      n == n' && f == f' && l == l' && s' == s + d && e' == e + d
    case (Tok(Close(s, e, l)), Tok(Close(s', e', l'))) => l == l' && s' == s + d && e' == e + d
    case (Bad(p), Bad(p')) => p == p'
    case _ => false
  }

  ghost predicate AllMoved(a: seq<Item>, b: seq<Item>, d: int) {
    |a| == |b| && forall i :: 0 <= i < |a| ==> Moved(a[i], b[i], d)
  }

  lemma {:induction false} MovedConcat(a: seq<Item>, b: seq<Item>, a': seq<Item>, b': seq<Item>, d: int)
    requires AllMoved(a, b, d) && AllMoved(a', b', d)
    ensures AllMoved(a + a', b + b', d)
  {
  }

  ghost predicate AllTok(items: seq<Item>) {
    forall i :: 0 <= i < |items| ==> items[i].Tok?
  }

  /** A value whose insertion cannot disturb the scan. */
  ghost predicate Clean(v: string) {
    forall i :: 0 <= i < |v| ==> v[i] != '<' && v[i] != '`' && !IsBreak(v[i])
  }

  ghost predicate NoBreak(v: string) {
    forall i :: 0 <= i < |v| ==> !IsBreak(v[i])
  }

  // ----- common prefixes -----

  ghost predicate Same(u: string, u': string, p: nat) {
    p <= |u| && p <= |u'| && forall i :: 0 <= i < p ==> u[i] == u'[i]
  }

  lemma {:induction false} SameSlice(u: string, u': string, p: nat, a: nat, b: nat)
    requires Same(u, u', p) && a <= b <= p
    ensures u[a..b] == u'[a..b]
  {
  }

  // ----- parity of backticks -----

  lemma {:induction false} OddConcat(a: string, b: string)
    ensures OddTicks(a + b) == (OddTicks(a) != OddTicks(b))
  {
    if a == "" {
      assert a + b == b;
    } else {
      assert (a + b)[1..] == a[1..] + b;
      OddConcat(a[1..], b);
    }
  }

  lemma {:induction false} NoTicks(s: string)
    requires '`' !in s
    ensures !OddTicks(s)
  {
    if s != "" {
      assert forall c :: c in s[1..] ==> c in s;
      NoTicks(s[1..]);
    }
  }

  // ----- the scan of one line -----

  lemma {:induction false} ScanSplit(u: string, n: nat, m: nat, odd: bool, at: nat, lineno: nat)
    requires n + m <= |u|
    ensures Scan(u, n + m, odd, at, lineno)
         == Scan(u, n, odd, at, lineno) + Scan(u[n..], m, odd != OddTicks(u[..n]), at + n, lineno)
    decreases n
  {
    hide Here;
    if n == 0 {
      assert u[n..] == u;
    } else {
      ScanSplit(u[1..], n - 1, m, odd != (u[0] == '`'), at + 1, lineno);
      assert u[1..][n - 1..] == u[n..];
      assert u[..n][1..] == u[1..][..n - 1];
    }
  }

  lemma {:induction false} ScanUnfold(u: string, n: nat, odd: bool, at: nat, lineno: nat)
    requires 0 < n <= |u|
    ensures Scan(u, n, odd, at, lineno)
         == Here(u, odd, at, lineno) + Scan(u[1..], n - 1, odd != (u[0] == '`'), at + 1, lineno)
  {
    hide Here;
  }

  lemma {:induction false} HereMoved(u: string, odd: bool, at: nat, at': nat, lineno: nat)
    ensures AllMoved(Here(u, odd, at, lineno), Here(u, odd, at', lineno), at' - at)
  {
    hide Classify, KeywordLen;
  }

  lemma {:induction false} ScanMoved(u: string, n: nat, odd: bool, at: nat, at': nat, lineno: nat)
    requires n <= |u|
    ensures AllMoved(Scan(u, n, odd, at, lineno), Scan(u, n, odd, at', lineno), at' - at)
    decreases n
  {
    hide Here, Moved;
    if n > 0 {
      hide AllMoved, Scan;
      var odd' := odd != (u[0] == '`');
      ScanMoved(u[1..], n - 1, odd', at + 1, at' + 1, lineno);
      HereMoved(u, odd, at, at', lineno);
      MovedConcat(Here(u, odd, at, lineno), Here(u, odd, at', lineno),
                  Scan(u[1..], n - 1, odd', at + 1, lineno), Scan(u[1..], n - 1, odd', at' + 1, lineno), at' - at);
      ScanUnfold(u, n, odd, at, lineno);
      ScanUnfold(u, n, odd, at', lineno);
    }
  }

  lemma {:induction false} HereNoTicks(u: string, odd: bool, odd': bool, at: nat, lineno: nat)
    requires '`' !in u
    ensures Here(u, odd, at, lineno) == Here(u, odd', at, lineno)
  {
    hide KeywordLen, Classify;
  }

  /** With no backtick ahead, the parity behind does not matter. */
  lemma {:induction false} ScanNoTicks(u: string, n: nat, odd: bool, odd': bool, at: nat, lineno: nat)
    requires n <= |u| && '`' !in u
    ensures Scan(u, n, odd, at, lineno) == Scan(u, n, odd', at, lineno)
    decreases n
  {
    hide Here;
    if n > 0 {
      HereNoTicks(u, odd, odd', at, lineno);
      assert forall c :: c in u[1..] ==> c in u;
      ScanNoTicks(u[1..], n - 1, odd, odd', at + 1, lineno);
    }
  }

  lemma {:induction false} ScanNoAngle(u: string, n: nat, odd: bool, at: nat, lineno: nat)
    requires n <= |u| && forall i :: 0 <= i < n ==> u[i] != '<'
    ensures Scan(u, n, odd, at, lineno) == []
    decreases n
  {
    if n > 0 {
      ScanNoAngle(u[1..], n - 1, odd != (u[0] == '`'), at + 1, lineno);
    }
  }

  /** Where the items of a scan are, and what each one is. */
  lemma {:induction false} ScanItem(u: string, n: nat, odd: bool, at: nat, lineno: nat, j: nat) returns (i: nat)
    requires n <= |u| && j < |Scan(u, n, odd, at, lineno)|
    ensures i < n && Starts(u[i..], odd != OddTicks(u[..i]))
    ensures Scan(u, n, odd, at, lineno)[j] == ItemAt(u[i..], at + i, lineno)
    decreases n
  {
    hide Classify, KeywordLen;
    var odd' := odd != (u[0] == '`');
    var rest := Scan(u[1..], n - 1, odd', at + 1, lineno);
    if Starts(u, odd) && j == 0 {
      i := 0;
      assert u[0..] == u;
    } else {
      var j' := if Starts(u, odd) then j - 1 else j;
      assert Scan(u, n, odd, at, lineno)[j] == rest[j'];
      var i' := ScanItem(u[1..], n - 1, odd', at + 1, lineno, j');
      i := i' + 1;
      assert u[1..][i'..] == u[i..];
      assert u[..i][1..] == u[1..][..i'];
    }
  }

  // ----- one token -----

  lemma {:induction false} FindAt(s: string, i: nat, c: char, j: nat)
    requires i <= j < |s| && s[j] == c && forall k :: i <= k < j ==> s[k] != c
    ensures Find(s, i, c) == j
  {
    hide Find;
  }

  lemma {:induction false} SkipAt(s: string, i: nat, j: nat)
    requires i <= j < |s| && !IsSpace(s[j]) && forall k :: i <= k < j ==> IsSpace(s[k])
    ensures SkipSpaces(s, i) == j
  {
    hide SkipSpaces;
  }

  lemma {:induction false} FindPrefix(u: string, u': string, p: nat, i: nat, c: char)
    requires i < p && Same(u, u', p) && u[p - 1] == c
    ensures Find(u, i, c) == Find(u', i, c) < p
    decreases p - i
  {
    if i + 1 < p && u[i] != c {
      FindPrefix(u, u', p, i + 1, c);
    }
  }

  lemma {:induction false} SkipPrefix(u: string, u': string, p: nat, i: nat)
    requires i < p && Same(u, u', p) && !IsSpace(u[p - 1])
    ensures SkipSpaces(u, i) == SkipSpaces(u', i) < p
    decreases p - i
  {
    if IsSpace(u[i]) {
      SkipPrefix(u, u', p, i + 1);
    }
  }

  lemma {:induction false} InLit(u: string, i: nat, lit: string, j: nat)
    requires At(u, i, lit) && i <= j < i + |lit|
    ensures u[j] in lit
  {
    assert u[j] == u[i..i + |lit|][j - i];
  }

  lemma {:induction false} AtPrefix(u: string, u': string, p: nat, i: nat, lit: string)
    requires i < p && Same(u, u', p) && u[p - 1] !in lit
    requires At(u, i, lit)
    ensures At(u', i, lit) && i + |lit| < p
  {
    var last: nat := p - 1;
    if i + |lit| >= p && lit != "" {
      InLit(u, i, lit, last);
    }
    SameSlice(u, u', p, i, i + |lit|);
  }

  lemma {:induction false} AtSame(u: string, u': string, p: nat, i: nat, lit: string)
    requires i < p && Same(u, u', p) && u[p - 1] !in lit
    ensures At(u, i, lit) == At(u', i, lit)
    ensures At(u, i, lit) ==> i + |lit| < p
  {
    hide At;
    if At(u, i, lit) { AtPrefix(u, u', p, i, lit); }
    if At(u', i, lit) { AtPrefix(u', u, p, i, lit); }
  }

  lemma {:induction false} KeywordPrefix(u: string, u': string, p: nat)
    requires 0 < p && Same(u, u', p) && u[p - 1] == '>'
    ensures KeywordLen(u) == KeywordLen(u') < p
    ensures KeywordLen(u) != 0 ==> IsClosing(u) == IsClosing(u')
  {
    hide At;
    AtSame(u, u', p, 0, "<!--");
    if At(u, 0, "<!--") {
      SkipPrefix(u, u', p, 4);
      hide IsSpace;
      var a := SkipSpaces(u, 4);
      var b := if u[a] == '/' then a + 1 else a;
      assert b < p;
      AtSame(u, u', p, b, "fig");
      if At(u, b, "fig") {
      }
    }
  }

  /** A token that starts before a `>` is decided by the text up to that `>`. */
  lemma {:induction false} ClassifyPrefix(u: string, u': string, p: nat)
    requires 0 < p && Same(u, u', p) && u[p - 1] == '>'
    requires 0 != KeywordLen(u) == KeywordLen(u') < p
    requires IsClosing(u) == IsClosing(u')
    ensures Classify(u) == Classify(u')
  {
    hide KeywordLen, IsClosing, Trim, Decide;
    var k := KeywordLen(u);
    FindPrefix(u, u', p, k, '>');
    hide Find;
    var g := Find(u, k, '>');
    if g >= k + 2 {
      SameSlice(u, u', p, k, g - 2);
    }
  }

  lemma {:induction false} TokenPrefix(u: string, u': string, p: nat)
    requires 0 < p && Same(u, u', p) && u[p - 1] == '>'
    ensures KeywordLen(u) == KeywordLen(u') < p
    ensures KeywordLen(u) != 0 ==> Classify(u) == Classify(u')
  {
    hide Classify, KeywordLen, Same, IsClosing;
    KeywordPrefix(u, u', p);
    if KeywordLen(u) != 0 {
      ClassifyPrefix(u, u', p);
    }
  }

  ghost predicate Plain(c: char) { c != '<' && c != '`' }

  lemma {:induction false} SpacePlain(c: char)
    requires IsSpace(c)
    ensures Plain(c)
  {
  }

  lemma {:induction false} TrimPlain(s: string)
    requires forall c :: c in Trim(s) ==> Plain(c)
    ensures forall j :: 0 <= j < |s| ==> Plain(s[j])
  {
    hide IsSpace, Plain;
    var a := SkipSpaces(s, 0);
    var r := RTrim(s[a..]);
    forall j | 0 <= j < |s| ensures Plain(s[j]) {
      if j < a {
        SpacePlain(s[j]);
      } else {
        assert s[j] == s[a..][j - a];
        if j < a + |r| {
          assert s[j] == r[j - a];
        } else {
          SpacePlain(s[j]);
        }
      }
    }
  }

  lemma {:induction false} ParseOpenPlain(r: string)
    requires ParseOpen(r).Some?
    ensures forall j :: 0 <= j < |r| ==> Plain(r[j])
  {
    hide IsSpace;
    var e := NameEnd(r, 1);
    if e < |r| {
      var f := SkipSpaces(r, e);
      forall j | 0 <= j < |r| ensures Plain(r[j]) {
        if e <= j < f {
          SpacePlain(r[j]);
        } else if f <= j < f + 6 {
          assert r[j] == r[f..f + 6][j - f] == "floor="[j - f];
        } else if j >= f + 6 {
          assert r[j] == r[f + 6..][j - f - 6];
        }
      }
    }
  }

  lemma {:induction false} KeywordPlain(u: string)
    requires KeywordLen(u) != 0
    ensures forall j :: 0 < j < KeywordLen(u) ==> Plain(u[j])
  {
    var a := SkipSpaces(u, 4);
    hide IsSpace, IsWord;
    var b := if u[a] == '/' then a + 1 else a;
    forall j | 0 < j < b + 3 ensures Plain(u[j]) {
      if j < 4 {
        assert u[j] == u[0..4][j] == "<!--"[j];
      } else if j < a {
        SpacePlain(u[j]);
      } else if j >= b {
        assert u[j] == u[b..b + 3][j - b] == "fig"[j - b];
      }
    }
  }

  ghost predicate GoodLen(u: string, n: nat) {
    10 <= n <= |u| && u[n - 1] == '>' && forall j :: 0 < j < n ==> Plain(u[j])
  }

  /** Inside a well-formed token nothing starts a tag or a code span. */
  lemma {:induction false} DecidePlain(closing: bool, rest: string, len: nat)
    requires !Decide(closing, rest, len).BadShape?
    ensures Decide(closing, rest, len).len == len
    ensures forall c :: c in rest ==> Plain(c)
  {
    hide IsSpace;
    if !closing {
      ParseOpenPlain(rest);
    }
  }

  lemma {:induction false} ClassifyGood(u: string) returns (g: nat)
    requires KeywordLen(u) != 0 && !Classify(u).BadShape?
    ensures KeywordLen(u) + 2 <= g < |u| && u[g - 2] == '-' && u[g - 1] == '-' && u[g] == '>'
    ensures Classify(u) == Decide(IsClosing(u), Trim(u[KeywordLen(u)..g - 2]), g + 1)
  {
    hide KeywordLen, IsClosing, Trim, Decide;
    g := Find(u, KeywordLen(u), '>');
  }

  lemma {:induction false} PlainTail(u: string, k: nat, g: nat, inner: string)
    requires 0 < k && k + 2 <= g < |u| && u[g - 2] == '-' && u[g - 1] == '-' && u[g] == '>'
    requires forall j :: 0 < j < k ==> Plain(u[j])
    requires inner == u[k..g - 2] && forall j :: 0 <= j < |inner| ==> Plain(inner[j])
    ensures forall j :: 0 < j < g + 1 ==> Plain(u[j])
  {
    forall j | 0 < j < g + 1 ensures Plain(u[j]) {
      if k <= j < g - 2 {
        assert u[j] == inner[j - k];
      }
    }
  }

  lemma {:induction false} TokenInterior(u: string)
    requires KeywordLen(u) != 0 && !Classify(u).BadShape?
    ensures GoodLen(u, Classify(u).len)
  {
    hide KeywordLen, IsClosing, Trim, Decide, Classify, Plain;
    var k := KeywordLen(u);
    var g := ClassifyGood(u);
    var inner := u[k..g - 2];
    assert Classify(u).len == g + 1 && forall j :: 0 <= j < |inner| ==> Plain(inner[j]) by {
      DecidePlain(IsClosing(u), Trim(inner), g + 1);
      TrimPlain(inner);
    }
    KeywordPlain(u);
    PlainTail(u, k, g, inner);
  }

  lemma {:induction false} ScanTok(u: string, n: nat, odd: bool, at: nat, lineno: nat, j: nat) returns (i: nat)
    requires n <= |u| && j < |Scan(u, n, odd, at, lineno)|
    requires Scan(u, n, odd, at, lineno)[j].Tok?
    ensures i < n && Starts(u[i..], odd != OddTicks(u[..i]))
    ensures var t := Scan(u, n, odd, at, lineno)[j].token;
      t.start == at + i && t.line == lineno && at + i + 10 <= t.end <= at + |u|
      && u[t.end - at - 1] == '>' && forall k :: i < k < t.end - at ==> Plain(u[k])
  {
    hide Scan, Classify, KeywordLen;
    i := ScanItem(u, n, odd, at, lineno, j);
    TokenInterior(u[i..]);
    var t := Scan(u, n, odd, at, lineno)[j].token;
    assert u[t.end - at - 1] == u[i..][t.end - at - 1 - i];
    forall k | i < k < t.end - at ensures Plain(u[k]) {
      assert u[k] == u[i..][k - i];
    }
  }

  // ----- replacing the value inside one line -----

  lemma {:induction false} HereSame(u: string, u': string, p: nat, odd: bool, at: nat, lineno: nat)
    requires 0 < p && Same(u, u', p) && u[p - 1] == '>'
    requires odd ==> (('`' in u) == ('`' in u'))
    ensures Here(u, odd, at, lineno) == Here(u', odd, at, lineno)
  {
    hide Classify, KeywordLen;
    TokenPrefix(u, u', p);
    KeywordFront(u);
    KeywordFront(u');
    assert Starts(u, odd) == Starts(u', odd);
    assert Starts(u, odd) ==> ItemAt(u, at, lineno) == ItemAt(u', at, lineno);
  }

  lemma {:induction false} KeywordFront(u: string)
    ensures KeywordLen(u) != 0 ==> u != ""
  {
    hide KeywordLen;
  }

  /** The part of the line before the value reads the same whatever follows, as long as the
      opening token at `m` is the last one and an even number of backticks precede it. */
  lemma {:induction false} PrefixScan(u: string, u': string, n: nat, odd: bool, at: nat, lineno: nat, m: nat)
    requires m < n && Same(u, u', n) && u[n - 1] == '>'
    requires odd == OddTicks(u[..m])
    requires forall k :: m < k < n ==> u[k] != '<'
    ensures Scan(u, n, odd, at, lineno) == Scan(u', n, odd, at, lineno)
    decreases m
  {
    hide Here;
    var odd' := odd != (u[0] == '`');
    if m == 0 {
      ScanNoAngle(u[1..], n - 1, odd', at + 1, lineno);
      ScanNoAngle(u'[1..], n - 1, odd', at + 1, lineno);
      assert !odd;
    } else {
      if odd {
        OddHasTick(u, m);
        SameTick(u, u', n, m);
      }
      assert u[..m][1..] == u[1..][..m - 1];
      PrefixScan(u[1..], u'[1..], n - 1, odd', at + 1, lineno, m - 1);
    }
    HereSame(u, u', n, odd, at, lineno);
  }

  lemma {:induction false} OddHasTick(u: string, m: nat)
    requires m <= |u| && OddTicks(u[..m])
    ensures exists i :: 0 <= i < m && u[i] == '`'
  {
    if '`' !in u[..m] { NoTicks(u[..m]); }
  }

  lemma {:induction false} SameTick(u: string, u': string, n: nat, m: nat)
    requires m <= n && Same(u, u', n) && exists i :: 0 <= i < m && u[i] == '`'
    ensures '`' in u && '`' in u'
  {
    var i :| 0 <= i < m && u[i] == '`';
    assert u'[i] == '`';
  }

  lemma {:induction false} TickBefore(u: string, n: nat)
    requires n <= |u| && '`' in u && '`' !in u[n..]
    ensures exists i :: 0 <= i < n && u[i] == '`'
  {
    assert u == u[..n] + u[n..];
    assert '`' in u[..n];
  }

  lemma {:induction false} SameTicks(u: string, u': string, n: nat)
    requires Same(u, u', n) && '`' !in u[n..] && '`' !in u'[n..]
    ensures ('`' in u) == ('`' in u')
  {
    if '`' in u {
      TickBefore(u, n);
      SameTick(u, u', n, n);
    }
    if '`' in u' {
      TickBefore(u', n);
      SameTick(u', u, n, n);
    }
  }

  /** The same without any backtick ahead. */
  lemma {:induction false} PrefixScanNoTicks(u: string, u': string, n: nat, odd: bool, at: nat, lineno: nat)
    requires 0 < n && Same(u, u', n) && u[n - 1] == '>'
    requires '`' !in u[n..] && '`' !in u'[n..]
    ensures Scan(u, n, odd, at, lineno) == Scan(u', n, odd, at, lineno)
    decreases n
  {
    hide Here;
    SameTicks(u, u', n);
    HereSame(u, u', n, odd, at, lineno);
    if n > 1 {
      assert u[1..][n - 1..] == u[n..] && u'[1..][n - 1..] == u'[n..];
      PrefixScanNoTicks(u[1..], u'[1..], n - 1, odd != (u[0] == '`'), at + 1, lineno);
    }
  }

  /** A line cut at the value of one of its markers. */
  datatype Cut = Cut(pre: string, value: string, post: string) {
    ghost function Line(): string { pre + value + post }

    ghost function With(v: string): Cut { Cut(pre, v, post) }
  }

  ghost function CutItems(c: Cut, at: nat, lineno: nat): seq<Item> {
    Scan(c.Line(), |c.Line()|, false, at, lineno)
  }

  ghost function BeforeValue(c: Cut, at: nat, lineno: nat): seq<Item> {
    var line := c.Line();
    Scan(line, |c.pre|, false, at, lineno)
  }

  ghost function InValue(c: Cut, at: nat, lineno: nat): seq<Item> {
    Scan(c.value + c.post, |c.value|, OddTicks(c.pre), at + |c.pre|, lineno)
  }

  ghost function AfterValue(c: Cut, at: nat, lineno: nat): seq<Item> {
    Scan(c.post, |c.post|, OddTicks(c.pre) != OddTicks(c.value), at + |c.pre| + |c.value|, lineno)
  }

  lemma {:induction false} CutTail(c: Cut, at: nat, lineno: nat)
    ensures Scan(c.value + c.post, |c.value + c.post|, OddTicks(c.pre), at + |c.pre|, lineno)
         == InValue(c, at, lineno) + AfterValue(c, at, lineno)
  {
    hide Scan, OddTicks;
    ScanSplit(c.value + c.post, |c.value|, |c.post|, OddTicks(c.pre), at + |c.pre|, lineno);
    assert (c.value + c.post)[|c.value|..] == c.post;
    assert (c.value + c.post)[..|c.value|] == c.value;
  }

  lemma {:induction false} CutSplit(c: Cut, at: nat, lineno: nat)
    ensures CutItems(c, at, lineno) == BeforeValue(c, at, lineno) + (InValue(c, at, lineno) + AfterValue(c, at, lineno))
  {
    CutTail(c, at, lineno);
    hide Scan, OddTicks, InValue, AfterValue;
    var s := c.Line();
    ScanSplit(s, |c.pre|, |c.value + c.post|, false, at, lineno);
    assert s[|c.pre|..] == c.value + c.post;
    assert s[..|c.pre|] == c.pre;
  }

  /** `k` is the item index of the opening token that ends where the value begins; the next
      item is the closing token that starts where it ends. */
  ghost predicate Around(items: seq<Item>, k: nat, from: nat, to: nat) {
    && AllTok(items) && k + 1 < |items|
    && items[k].token.Open? && items[k].token.end == from
    && items[k + 1].token.Close? && items[k + 1].token.start == to
  }

  lemma {:induction false} BeforeBounds(c: Cut, at: nat, lineno: nat)
    ensures forall t :: Tok(t) in BeforeValue(c, at, lineno) ==> t.start < at + |c.pre|
  {
    hide Scan;
    var a := BeforeValue(c, at, lineno);
    forall t | Tok(t) in a ensures t.start < at + |c.pre| {
      var j :| 0 <= j < |a| && a[j] == Tok(t);
      var _ := ScanTok(c.Line(), |c.pre|, false, at, lineno, j);
    }
  }

  lemma {:induction false} InBounds(c: Cut, at: nat, lineno: nat)
    ensures forall t :: Tok(t) in InValue(c, at, lineno) ==>
      at + |c.pre| <= t.start < at + |c.pre| + |c.value| && t.start < t.end
  {
    hide Scan, OddTicks;
    var a := InValue(c, at, lineno);
    forall t | Tok(t) in a ensures at + |c.pre| <= t.start < at + |c.pre| + |c.value| && t.start < t.end {
      var j :| 0 <= j < |a| && a[j] == Tok(t);
      var _ := ScanTok(c.value + c.post, |c.value|, OddTicks(c.pre), at + |c.pre|, lineno, j);
    }
  }

  lemma {:induction false} AfterBounds(c: Cut, at: nat, lineno: nat)
    ensures forall t :: Tok(t) in AfterValue(c, at, lineno) ==> at + |c.pre| + |c.value| <= t.start < t.end
  {
    hide Scan, OddTicks;
    var a := AfterValue(c, at, lineno);
    forall t | Tok(t) in a ensures at + |c.pre| + |c.value| <= t.start < t.end {
      var j :| 0 <= j < |a| && a[j] == Tok(t);
      var _ := ScanTok(c.post, |c.post|, OddTicks(c.pre) != OddTicks(c.value), at + |c.pre| + |c.value|, lineno, j);
    }
  }

  lemma {:induction false} RunOf(a: seq<Item>, r: seq<Item>, k: nat)
    requires k < |a + r|
    ensures k < |a| ==> (a + r)[k] in a
    ensures k >= |a| ==> (a + r)[k] in r
  {
  }

  /** Three consecutive runs of items told apart by their positions. */
  lemma {:induction false} SplitAt(a: seq<Item>, b: seq<Item>, e: seq<Item>, k: nat, from: nat, to: nat)
    requires Around(a + (b + e), k, from, to)
    requires forall t :: Tok(t) in a ==> t.start < from
    requires forall t :: Tok(t) in b ==> from <= t.start < to && t.start < t.end
    requires forall t :: Tok(t) in e ==> to <= t.start < t.end
    requires from <= to
    ensures |a| == k + 1 && b == [] && e != []
    ensures a[k].Tok? && a[k].token.Open? && a[k].token.end == from
    ensures e[0].Tok? && e[0].token.Close? && e[0].token.start == to
  {
    var items := a + (b + e);
    assert items[k] == Tok(items[k].token) && items[k + 1] == Tok(items[k + 1].token);
    RunOf(a, b + e, k);
    RunOf(a, b + e, k + 1);
    assert |a| == k + 1;
    assert items[k + 1] == (b + e)[0];
    RunOf(b, e, 0);
  }

  /** In a line without problems, nothing starts inside the value, and the opening token is
      the last item before it. */
  lemma {:induction false} CutRuns(c: Cut, at: nat, lineno: nat, k: nat)
    requires Around(CutItems(c, at, lineno), k, at + |c.pre|, at + |c.pre| + |c.value|)
    ensures var a, e := BeforeValue(c, at, lineno), AfterValue(c, at, lineno);
      |a| == k + 1 && InValue(c, at, lineno) == [] && e != []
      && a[k].Tok? && a[k].token.Open? && a[k].token.end == at + |c.pre|
      && e[0].Tok? && e[0].token.Close? && e[0].token.start == at + |c.pre| + |c.value|
  {
    CutSplit(c, at, lineno);
    hide BeforeValue, InValue, AfterValue, CutItems;
    BeforeBounds(c, at, lineno);
    InBounds(c, at, lineno);
    AfterBounds(c, at, lineno);
    SplitAt(BeforeValue(c, at, lineno), InValue(c, at, lineno), AfterValue(c, at, lineno), k,
            at + |c.pre|, at + |c.pre| + |c.value|);
  }

  /** What the opening token before the value and the closing one after it tell. */
  ghost predicate Framed(c: Cut, m: nat) {
    && m + 10 <= |c.pre| && c.pre[|c.pre| - 1] == '>' && c.pre[m] == '<'
    && Starts(c.pre[m..] + (c.value + c.post), OddTicks(c.pre[..m]))
    && (forall j :: m < j < |c.pre| ==> Plain(c.pre[j]))
    && c.post != "" && c.post[0] == '<'
    && Starts(c.post, OddTicks(c.pre) != OddTicks(c.value))
  }

  lemma {:induction false} CutOpen(c: Cut, at: nat, lineno: nat, k: nat) returns (m: nat)
    requires k < |BeforeValue(c, at, lineno)|
    requires var o := BeforeValue(c, at, lineno)[k]; o.Tok? && o.token.end == at + |c.pre|
    ensures m + 10 <= |c.pre| && c.pre[|c.pre| - 1] == '>' && c.pre[m] == '<'
    ensures Starts(c.pre[m..] + (c.value + c.post), OddTicks(c.pre[..m]))
    ensures forall j :: m < j < |c.pre| ==> Plain(c.pre[j])
  {
    hide Scan, OddTicks;
    var s, p := c.Line(), |c.pre|;
    m := ScanTok(s, p, false, at, lineno, k);
    assert s[..m] == c.pre[..m];
    assert s[m..] == c.pre[m..] + (c.value + c.post);
    assert s[m..][0] == '<' by { hide Classify; }
    hide Starts;
    forall j | m < j < p ensures Plain(c.pre[j]) {
      assert s[j] == c.pre[j];
    }
  }

  lemma {:induction false} CutClose(c: Cut, at: nat, lineno: nat)
    requires AfterValue(c, at, lineno) != []
    requires var o := AfterValue(c, at, lineno)[0]; o.Tok? && o.token.start == at + |c.pre| + |c.value|
    ensures c.post != "" && c.post[0] == '<'
    ensures Starts(c.post, OddTicks(c.pre) != OddTicks(c.value))
  {
    hide Scan, KeywordLen;
    var odd := OddTicks(c.pre) != OddTicks(c.value);
    var z := ScanTok(c.post, |c.post|, odd, at + |c.pre| + |c.value|, lineno, 0);
    assert z == 0;
    assert c.post[0..] == c.post;
    assert odd == (odd != OddTicks(c.post[..0]));
  }

  lemma {:induction false} CutFramed(c: Cut, at: nat, lineno: nat, k: nat) returns (m: nat)
    requires Around(CutItems(c, at, lineno), k, at + |c.pre|, at + |c.pre| + |c.value|)
    ensures Framed(c, m)
  {
    hide BeforeValue, AfterValue, CutItems, Starts, Around;
    CutRuns(c, at, lineno, k);
    m := CutOpen(c, at, lineno, k);
    CutClose(c, at, lineno);
  }

  /** The parity facts that make the scan of a marker's line independent of its value. */
  lemma {:induction false} CutParity(c: Cut, m: nat)
    requires Framed(c, m)
    ensures OddTicks(c.pre) == OddTicks(c.pre[..m])
    ensures '`' in c.value || '`' in c.post ==> !OddTicks(c.pre)
    ensures '`' in c.post ==> !OddTicks(c.value)
  {
    hide KeywordLen, OddTicks;
    assert c.pre == c.pre[..m] + c.pre[m..];
    OddConcat(c.pre[..m], c.pre[m..]);
    NoTicks(c.pre[m..]);
    if '`' in c.value || '`' in c.post {
      assert '`' in c.pre[m..] + (c.value + c.post);
    }
  }

  lemma {:induction false} BeforeSame(c: Cut, at: nat, lineno: nat, m: nat, v: string)
    requires Framed(c, m) && Clean(v)
    ensures BeforeValue(c.With(v), at, lineno) == BeforeValue(c, at, lineno)
  {
    hide Scan, OddTicks, Starts;
    CutParity(c, m);
    var p, s, s' := |c.pre|, c.Line(), c.With(v).Line();
    assert Same(s, s', p);
    if '`' in c.value || '`' in c.post {
      assert s[..m] == c.pre[..m];
      PrefixScan(s, s', p, false, at, lineno, m);
    } else {
      assert s[p..] == c.value + c.post && s'[p..] == v + c.post;
      PrefixScanNoTicks(s, s', p, false, at, lineno);
    }
  }

  lemma {:induction false} InNone(c: Cut, at: nat, lineno: nat)
    requires Clean(c.value)
    ensures InValue(c, at, lineno) == []
  {
    ScanNoAngle(c.value + c.post, |c.value|, OddTicks(c.pre), at + |c.pre|, lineno);
  }

  lemma {:induction false} TailMoved(u: string, odd: bool, odd': bool, at: nat, at': nat, lineno: nat)
    requires '`' in u ==> odd == odd'
    ensures AllMoved(Scan(u, |u|, odd, at, lineno), Scan(u, |u|, odd', at', lineno), at' - at)
  {
    hide Scan, AllMoved;
    ScanMoved(u, |u|, odd, at, at', lineno);
    if '`' !in u {
      ScanNoTicks(u, |u|, odd, odd', at', lineno);
    }
  }

  lemma {:induction false} AfterMoved(c: Cut, at: nat, lineno: nat, m: nat, v: string)
    requires Framed(c, m) && Clean(v)
    ensures AllMoved(AfterValue(c, at, lineno), AfterValue(c.With(v), at, lineno), |v| - |c.value|)
  {
    hide Scan, Framed, AllMoved, OddTicks;
    CutParity(c, m);
    NoTicks(v);
    TailMoved(c.post, OddTicks(c.pre) != OddTicks(c.value), OddTicks(c.pre) != OddTicks(v),
              at + |c.pre| + |c.value|, at + |c.pre| + |v|, lineno);
  }

  lemma {:induction false} ReplacedConcat(a: seq<Item>, e: seq<Item>, e': seq<Item>, d: int)
    requires AllMoved(e, e', d)
    ensures Replaced(a + e, a + e', |a|, d)
  {
    hide AllMoved;
    assert (a + e)[..|a|] == a == (a + e')[..|a|];
    assert (a + e)[|a|..] == e && (a + e')[|a|..] == e';
  }

  lemma {:induction false} ReplaceInLine(c: Cut, at: nat, lineno: nat, k: nat, v: string)
    requires Around(CutItems(c, at, lineno), k, at + |c.pre|, at + |c.pre| + |c.value|)
    requires Clean(v)
    ensures Replaced(CutItems(c, at, lineno), CutItems(c.With(v), at, lineno), k + 1, |v| - |c.value|)
  {
    hide BeforeValue, InValue, AfterValue, CutItems, AllMoved, Framed, Around, Replaced;
    CutRuns(c, at, lineno, k);
    var m := CutFramed(c, at, lineno, k);
    BeforeSame(c, at, lineno, m, v);
    InNone(c.With(v), at, lineno);
    AfterMoved(c, at, lineno, m, v);
    CutSplit(c, at, lineno);
    CutSplit(c.With(v), at, lineno);
    var a, e, e' := BeforeValue(c, at, lineno), AfterValue(c, at, lineno), AfterValue(c.With(v), at, lineno);
    assert CutItems(c, at, lineno) == a + e && CutItems(c.With(v), at, lineno) == a + e';
    ReplacedConcat(a, e, e', |v| - |c.value|);
  }

  /** The first `n` items are the same and the others moved by `d`. */
  ghost predicate Replaced(items: seq<Item>, items': seq<Item>, n: nat, d: int) {
    n <= |items| && n <= |items'| && items'[..n] == items[..n] && AllMoved(items[n..], items'[n..], d)
  }

  /** A fence is recognised before the first `<` of the line. */
  lemma {:induction false} FencePrefix(s: string, s': string, p: nat, m: nat)
    requires m + 3 <= p && Same(s, s', p) && s[m] == '<'
    ensures IsFence(s) == IsFence(s')
  {
    SkipPrefix(s, s', m + 1, 0);
    var k := SkipSpaces(s, 0);
    SameSlice(s, s', p, k, k + 3);
  }

  // ----- lines of the whole text -----

  lemma {:induction false} LineLenConcat(a: string, b: string)
    requires NoBreak(a)
    ensures LineLen(a + b) == |a| + LineLen(b)
  {
    if a == "" {
      assert a + b == b;
    } else {
      assert (a + b)[1..] == a[1..] + b;
      LineLenConcat(a[1..], b);
    }
  }

  /** A line that ends before the second-to-last character of a prefix is decided by it. */
  lemma {:induction false} LineLenPrefix(t: string, t': string, p: nat)
    requires Same(t, t', p) && LineLen(t) < p
    ensures LineLen(t') == LineLen(t)
    decreases p
  {
    if t != "" {
      if !EndsLine(t) {
        LineLenPrefix(t[1..], t'[1..], p - 1);
      }
    }
  }

  /** The first line ends in a break, or it is the whole text; a break inside it would have
      ended it unless it is a carriage return before the final newline. */
  lemma {:induction false} LineLenEnd(t: string)
    requires t != ""
    ensures LineLen(t) < |t| ==> IsBreak(t[LineLen(t) - 1])
    ensures forall i :: 0 <= i < LineLen(t) - 1 && IsBreak(t[i]) ==>
              t[i] == '\r' && t[i + 1] == '\n' && i + 2 == LineLen(t)
  {
    if !EndsLine(t) && |t| > 1 {
      LineLenEnd(t[1..]);
      if IsBreak(t[0]) {
        assert EndsLine(t[1..]);
      }
    }
  }

  lemma {:induction false} NoBreakAt(a: string, v: string, b: string, i: nat)
    requires a != "" && !IsBreak(a[|a| - 1]) && NoBreak(v) && b != "" && !IsBreak(b[0])
    requires |a| - 1 <= i <= |a| + |v|
    ensures !IsBreak((a + v + b)[i])
  {
    hide IsBreak;
    var t := a + v + b;
    if i < |a| {
      assert t[i] == a[|a| - 1];
    } else if i < |a| + |v| {
      assert t[i] == v[i - |a|];
    } else {
      assert t[i] == b[0];
    }
  }

  /** A line that reaches past a break-free stretch covers it. */
  lemma {:induction false} LineCovers(a: string, v: string, b: string)
    requires a != "" && !IsBreak(a[|a| - 1]) && NoBreak(v) && b != "" && !IsBreak(b[0])
    requires LineLen(a + v + b) >= |a|
    ensures LineLen(a + v + b) > |a| + |v|
    ensures NoBreak(a)
  {
    var t := a + v + b;
    var n := LineLen(t);
    LineLenEnd(t);
    hide LineLen, IsBreak;
    forall i | |a| - 1 <= i <= |a| + |v| ensures !IsBreak(t[i]) {
      NoBreakAt(a, v, b, i);
    }
    assert n > |a| + |v|;
    forall i | 0 <= i < |a| ensures !IsBreak(a[i]) {
      assert t[i] == a[i];
      assert IsBreak(t[i]) ==> i + 2 == n;
    }
  }

  lemma {:induction false} ItemsUnfold(t: string, at: nat, lineno: nat, inFence: bool)
    requires t != ""
    ensures var n := LineLen(t);
      Items(t, at, lineno, inFence)
      == LineItems(t[..n], at, lineno, inFence) + Items(t[n..], at + n, lineno + 1, inFence != IsFence(t[..n]))
  {
    hide LineItems, IsFence, LineLen;
  }

  lemma {:induction false} LineItemsMoved(line: string, at: nat, at': nat, lineno: nat, inFence: bool)
    ensures AllMoved(LineItems(line, at, lineno, inFence), LineItems(line, at', lineno, inFence), at' - at)
  {
    hide Scan, IsFence, HasStart;
    ScanMoved(line, |line|, false, at, at', lineno);
  }

  lemma {:induction false} ItemsMoved(t: string, at: nat, at': nat, lineno: nat, inFence: bool)
    ensures AllMoved(Items(t, at, lineno, inFence), Items(t, at', lineno, inFence), at' - at)
    decreases |t|
  {
    hide LineItems, Moved, IsFence, LineLen;
    if t != "" {
      hide Items, AllMoved;
      var n := LineLen(t);
      var f := inFence != IsFence(t[..n]);
      LineItemsMoved(t[..n], at, at', lineno, inFence);
      ItemsMoved(t[n..], at + n, at' + n, lineno + 1, f);
      MovedConcat(LineItems(t[..n], at, lineno, inFence), LineItems(t[..n], at', lineno, inFence),
                  Items(t[n..], at + n, lineno + 1, f), Items(t[n..], at' + n, lineno + 1, f), at' - at);
      ItemsUnfold(t, at, lineno, inFence);
      ItemsUnfold(t, at', lineno, inFence);
    }
  }

  /** Token `k` of a text at offset `at`: inside it, from `<` to `>`, with no `<` in between. */
  ghost predicate Placed(t: string, at: nat, k: Token) {
    && at <= k.start && k.start + 10 <= k.end <= at + |t|
    && t[k.start - at] == '<' && t[k.end - at - 1] == '>'
    && forall j :: k.start - at < j < k.end - at ==> t[j] != '<'
  }

  lemma {:induction false} LineItemsPlaced(line: string, at: nat, lineno: nat, inFence: bool, j: nat)
    requires j < |LineItems(line, at, lineno, inFence)|
    requires LineItems(line, at, lineno, inFence)[j].Tok?
    ensures Placed(line, at, LineItems(line, at, lineno, inFence)[j].token)
  {
    hide Scan, IsFence, HasStart, Classify;
    var i := ScanTok(line, |line|, false, at, lineno, j);
    assert line[i..][0] == '<';
  }

  lemma {:induction false} PlacedIn(t: string, n: nat, at: nat, k: Token)
    requires n <= |t|
    ensures Placed(t[..n], at, k) ==> Placed(t, at, k)
    ensures Placed(t[n..], at + n, k) ==> Placed(t, at, k)
  {
    if Placed(t[n..], at + n, k) {
      assert forall j :: n <= j < |t| ==> t[j] == t[n..][j - n];
    }
  }

  /** Every token lies inside the text it was scanned from. */
  lemma {:induction false} ItemsPlaced(t: string, at: nat, lineno: nat, inFence: bool, j: nat)
    requires j < |Items(t, at, lineno, inFence)|
    requires Items(t, at, lineno, inFence)[j].Tok?
    ensures Placed(t, at, Items(t, at, lineno, inFence)[j].token)
    decreases |t|
  {
    hide LineItems, IsFence, LineLen, Placed;
    assert t != "";
    hide Items;
    ItemsUnfold(t, at, lineno, inFence);
    var n := LineLen(t);
    var items := LineItems(t[..n], at, lineno, inFence);
    if j < |items| {
      LineItemsPlaced(t[..n], at, lineno, inFence, j);
    } else {
      ItemsPlaced(t[n..], at + n, lineno + 1, inFence != IsFence(t[..n]), j - |items|);
    }
    PlacedIn(t, n, at, Items(t, at, lineno, inFence)[j].token);
  }

  lemma {:induction false} HereFirst(u: string, odd: bool, at: nat, lineno: nat)
    ensures var h := Here(u, odd, at, lineno); |h| <= 1 && (h != [] && h[0].Tok? ==> h[0].token.start == at)
  {
    hide KeywordLen, Classify;
  }

  lemma {:induction false} ScanAscends(u: string, n: nat, odd: bool, at: nat, lineno: nat, i: nat, j: nat)
    requires n <= |u| && i < j < |Scan(u, n, odd, at, lineno)|
    requires var r := Scan(u, n, odd, at, lineno); r[i].Tok? && r[j].Tok?
    ensures var r := Scan(u, n, odd, at, lineno); r[i].token.start < r[j].token.start
    decreases n
  {
    hide Here;
    assert n > 0;
    hide Scan;
    var odd' := odd != (u[0] == '`');
    var h, r := Here(u, odd, at, lineno), Scan(u[1..], n - 1, odd', at + 1, lineno);
    HereFirst(u, odd, at, lineno);
    ScanUnfold(u, n, odd, at, lineno);
    assert (h + r)[j] == r[j - |h|];
    if i < |h| {
      var _ := ScanTok(u[1..], n - 1, odd', at + 1, lineno, j - |h|);
    } else {
      ScanAscends(u[1..], n - 1, odd', at + 1, lineno, i - |h|, j - |h|);
    }
  }

  // ----- replacing one value in the whole text -----

  lemma {:induction false} ReplacedLater(l: seq<Item>, r: seq<Item>, r': seq<Item>, n: nat, d: int)
    requires Replaced(r, r', n, d)
    ensures Replaced(l + r, l + r', |l| + n, d)
  {
    hide AllMoved;
    assert (l + r)[|l| + n..] == r[n..] && (l + r')[|l| + n..] == r'[n..];
    assert (l + r)[..|l| + n] == l + r[..n] && (l + r')[..|l| + n] == l + r'[..n];
  }

  lemma {:induction false} ReplacedBefore(l: seq<Item>, l': seq<Item>, r: seq<Item>, r': seq<Item>, n: nat, d: int)
    requires Replaced(l, l', n, d) && AllMoved(r, r', d)
    ensures Replaced(l + r, l' + r', n, d)
  {
    hide AllMoved;
    MovedConcat(l[n..], l'[n..], r, r', d);
    assert (l + r)[n..] == l[n..] + r && (l' + r')[n..] == l'[n..] + r';
    assert (l + r)[..n] == l[..n] && (l' + r')[..n] == l'[..n];
  }

  /** An item of two runs that starts before the second run's text is in the first. */
  lemma {:induction false} InFirst(l: seq<Item>, r: seq<Item>, k: nat, mid: nat)
    requires k < |l + r| && (l + r)[k].Tok?
    requires forall t :: Tok(t) in r ==> mid <= t.start < t.end
    requires forall t :: Tok(t) in l ==> t.end <= mid
    ensures (l + r)[k].token.start < mid ==> k < |l|
    ensures (l + r)[k].token.end > mid ==> k >= |l|
  {
    RunOf(l, r, k);
    assert (l + r)[k] == Tok((l + r)[k].token);
  }

  lemma {:induction false} LineRuns(t: string, at: nat, lineno: nat, inFence: bool)
    requires t != ""
    ensures var n := LineLen(t);
      && (forall k :: Tok(k) in LineItems(t[..n], at, lineno, inFence) ==> k.end <= at + n)
      && (forall k :: Tok(k) in Items(t[n..], at + n, lineno + 1, inFence != IsFence(t[..n])) ==>
        at + n <= k.start < k.end)
  {
    hide LineItems, Items, IsFence, LineLen;
    var n := LineLen(t);
    var l, f := LineItems(t[..n], at, lineno, inFence), inFence != IsFence(t[..n]);
    var r := Items(t[n..], at + n, lineno + 1, f);
    forall k | Tok(k) in l ensures k.end <= at + n {
      var j :| 0 <= j < |l| && l[j] == Tok(k);
      LineItemsPlaced(t[..n], at, lineno, inFence, j);
    }
    forall k | Tok(k) in r ensures at + n <= k.start < k.end {
      var j :| 0 <= j < |r| && r[j] == Tok(k);
      ItemsPlaced(t[n..], at + n, lineno + 1, f, j);
    }
  }

  /** The text split at the value of one marker. */
  ghost predicate Edges(a: string, v: string, b: string, w: string) {
    a != "" && a[|a| - 1] == '>' && b != "" && b[0] == '<' && NoBreak(v) && Clean(w)
  }

  lemma {:induction false} SplitLine(a: string, w: string, b: string)
    requires NoBreak(a) && NoBreak(w)
    ensures var line := Cut(a, w, b[..LineLen(b)]).Line();
      a + w + b == line + b[LineLen(b)..] && LineLen(line + b[LineLen(b)..]) == |line|
  {
    LineLenConcat(a, w + b);
    LineLenConcat(w, b);
    assert a + (w + b) == a + w + b;
    assert a + w + b == Cut(a, w, b[..LineLen(b)]).Line() + b[LineLen(b)..];
  }

  lemma {:induction false} SplitLines(a: string, v: string, b: string, w: string)
    requires Edges(a, v, b, w) && LineLen(a + v + b) >= |a|
    ensures a != "" && b[..LineLen(b)] != "" && Clean(w)
    ensures var c, rest := Cut(a, v, b[..LineLen(b)]), b[LineLen(b)..];
      && a + v + b == c.Line() + rest && LineLen(c.Line() + rest) == |c.Line()|
      && a + w + b == c.With(w).Line() + rest && LineLen(c.With(w).Line() + rest) == |c.With(w).Line()|
  {
    hide LineLen;
    LineCovers(a, v, b);
    SplitLine(a, v, b);
    SplitLine(a, w, b);
  }

  lemma {:induction false} UnfoldCut(c: Cut, rest: string, at: nat, lineno: nat, inFence: bool)
    requires c.Line() != "" && LineLen(c.Line() + rest) == |c.Line()|
    ensures Items(c.Line() + rest, at, lineno, inFence)
         == LineItems(c.Line(), at, lineno, inFence)
            + Items(rest, at + |c.Line()|, lineno + 1, inFence != IsFence(c.Line()))
    ensures forall k :: Tok(k) in LineItems(c.Line(), at, lineno, inFence) ==> k.end <= at + |c.Line()|
    ensures forall k :: Tok(k) in Items(rest, at + |c.Line()|, lineno + 1, inFence != IsFence(c.Line())) ==>
      at + |c.Line()| <= k.start < k.end
  {
    hide LineLen, Items, LineItems, IsFence;
    var t := c.Line() + rest;
    ItemsUnfold(t, at, lineno, inFence);
    LineRuns(t, at, lineno, inFence);
    assert t[..|c.Line()|] == c.Line() && t[|c.Line()|..] == rest;
  }

  lemma {:induction false} AroundEarlier(l: seq<Item>, r: seq<Item>, k: nat, from: nat, to: nat)
    requires Around(l + r, k, from, to) && k + 1 < |l|
    ensures Around(l, k, from, to)
  {
    assert forall i :: 0 <= i < |l| ==> l[i] == (l + r)[i];
  }

  lemma {:induction false} AroundLine(c: Cut, rest: string, at: nat, lineno: nat, inFence: bool, k: nat)
    requires c.pre != "" && c.post != "" && LineLen(c.Line() + rest) == |c.Line()|
    requires Around(Items(c.Line() + rest, at, lineno, inFence), k, at + |c.pre|, at + |c.pre| + |c.value|)
    ensures LineItems(c.Line(), at, lineno, inFence) == CutItems(c, at, lineno)
    ensures !IsFence(c.Line()) && !inFence && Around(CutItems(c, at, lineno), k, at + |c.pre|, at + |c.pre| + |c.value|)
  {
    hide LineLen, Items, LineItems, IsFence, CutItems;
    UnfoldCut(c, rest, at, lineno, inFence);
    var l, r := LineItems(c.Line(), at, lineno, inFence),
                Items(rest, at + |c.Line()|, lineno + 1, inFence != IsFence(c.Line()));
    ItemsPlaced(c.Line() + rest, at, lineno, inFence, k);
    InFirst(l, r, k, at + |c.Line()|);
    InFirst(l, r, k + 1, at + |c.Line()|);
    AroundEarlier(l, r, k, at + |c.pre|, at + |c.pre| + |c.value|);
    LineItemsScan(c, at, lineno, inFence, k);
  }

  lemma {:induction false} LineItemsScan(c: Cut, at: nat, lineno: nat, inFence: bool, k: nat)
    requires var l := LineItems(c.Line(), at, lineno, inFence); k < |l| && l[k].Tok?
    ensures LineItems(c.Line(), at, lineno, inFence) == CutItems(c, at, lineno)
    ensures !IsFence(c.Line()) && !inFence
  {
    hide Scan, IsFence, HasStart;
  }

  /** The replacement changes neither the line break nor the fence state. */
  lemma {:induction false} SameLine(c: Cut, v: string, m: nat)
    requires Framed(c, m)
    ensures IsFence(c.With(v).Line()) == IsFence(c.Line())
  {
    hide Starts, IsFence, OddTicks;
    assert Same(c.Line(), c.With(v).Line(), |c.pre|);
    FencePrefix(c.Line(), c.With(v).Line(), |c.pre|, m);
  }

  lemma {:induction false} ReplaceInCut(c: Cut, rest: string, at: nat, lineno: nat, inFence: bool, k: nat, w: string)
    requires c.pre != "" && c.post != "" && Clean(w)
    requires LineLen(c.Line() + rest) == |c.Line()| && LineLen(c.With(w).Line() + rest) == |c.With(w).Line()|
    requires Around(Items(c.Line() + rest, at, lineno, inFence), k, at + |c.pre|, at + |c.pre| + |c.value|)
    ensures Replaced(Items(c.Line() + rest, at, lineno, inFence), Items(c.With(w).Line() + rest, at, lineno, inFence),
                     k + 1, |w| - |c.value|)
  {
    hide LineLen, IsFence, CutItems, Items, Around, AllMoved, Replaced, LineItems, NoBreak, Clean, Framed;
    var c' := c.With(w);
    AroundLine(c, rest, at, lineno, inFence, k);
    var m := CutFramed(c, at, lineno, k);
    SameLine(c, w, m);
    ReplaceInLine(c, at, lineno, k, w);
    UnfoldCut(c, rest, at, lineno, inFence);
    UnfoldCut(c', rest, at, lineno, inFence);
    LineItemsCut(c', at, lineno);
    var p, p' := at + |c.Line()|, at + |c'.Line()|;
    ItemsMoved(rest, p, p', lineno + 1, false);
    ReplacedBefore(CutItems(c, at, lineno), CutItems(c', at, lineno),
                   Items(rest, p, lineno + 1, false), Items(rest, p', lineno + 1, false), k + 1, |w| - |c.value|);
  }

  lemma {:induction false} ReplaceInThisLine(a: string, v: string, b: string, at: nat, lineno: nat, inFence: bool,
      k: nat, w: string)
    requires Edges(a, v, b, w) && LineLen(a + v + b) >= |a|
    requires Around(Items(a + v + b, at, lineno, inFence), k, at + |a|, at + |a| + |v|)
    ensures Replaced(Items(a + v + b, at, lineno, inFence), Items(a + w + b, at, lineno, inFence), k + 1, |w| - |v|)
  {
    hide LineLen, IsFence, CutItems, Items, Around, AllMoved, Replaced, LineItems, NoBreak, Clean, Framed, Edges;
    SplitLines(a, v, b, w);
    ReplaceInCut(Cut(a, v, b[..LineLen(b)]), b[LineLen(b)..], at, lineno, inFence, k, w);
  }

  lemma {:induction false} LineItemsCut(c: Cut, at: nat, lineno: nat)
    requires !IsFence(c.Line())
    ensures LineItems(c.Line(), at, lineno, false) == CutItems(c, at, lineno)
  {
    hide Scan, IsFence;
  }

  lemma {:induction false} EarlierLine(a: string, v: string, b: string, w: string)
    requires Edges(a, v, b, w) && LineLen(a + v + b) < |a|
    ensures var n := LineLen(a + v + b);
      && LineLen(a + w + b) == n && 0 < n && Edges(a[n..], v, b, w)
      && (a + v + b)[..n] == a[..n] == (a + w + b)[..n]
      && (a + v + b)[n..] == a[n..] + v + b && (a + w + b)[n..] == a[n..] + w + b
  {
    LineLenPrefix(a + v + b, a + w + b, |a|);
  }

  /** Replacing the value of one marker of a text without problems leaves every item before
      the closing token alone and moves the others by the change of length. */
  lemma {:induction false} ReplaceItems(a: string, v: string, b: string, at: nat, lineno: nat, inFence: bool, k: nat,
      w: string)
    requires Edges(a, v, b, w)
    requires Around(Items(a + v + b, at, lineno, inFence), k, at + |a|, at + |a| + |v|)
    ensures Replaced(Items(a + v + b, at, lineno, inFence), Items(a + w + b, at, lineno, inFence), k + 1, |w| - |v|)
    decreases |a|
  {
    hide LineLen, IsFence, Items, AllMoved, LineItems, Replaced, NoBreak, Clean;
    var t, t' := a + v + b, a + w + b;
    var n := LineLen(t);
    if n >= |a| {
      ReplaceInThisLine(a, v, b, at, lineno, inFence, k, w);
    } else {
      EarlierLine(a, v, b, w);
      hide Edges;
      var l, f := LineItems(a[..n], at, lineno, inFence), inFence != IsFence(a[..n]);
      var r, r' := Items(a[n..] + v + b, at + n, lineno + 1, f), Items(a[n..] + w + b, at + n, lineno + 1, f);
      ItemsUnfold(t, at, lineno, inFence);
      ItemsUnfold(t', at, lineno, inFence);
      LineRuns(t, at, lineno, inFence);
      InFirst(l, r, k, at + n);
      InFirst(l, r, k + 1, at + n);
      AroundLater(l, r, k, at + |a|, at + |a| + |v|);
      ReplaceItems(a[n..], v, b, at + n, lineno + 1, f, k - |l|, w);
      ReplacedLater(l, r, r', k - |l| + 1, |w| - |v|);
    }
  }

  lemma {:induction false} AroundLater(l: seq<Item>, r: seq<Item>, k: nat, from: nat, to: nat)
    requires Around(l + r, k, from, to) && k >= |l|
    ensures Around(r, k - |l|, from, to)
  {
    assert forall i :: 0 <= i < |r| ==> r[i] == (l + r)[|l| + i];
  }

  lemma {:induction false} TailItems(l: seq<Item>, r: seq<Item>)
    requires AllTok(l + r)
    ensures AllTok(l) && AllTok(r)
    ensures forall k :: |l| <= k < |l + r| ==> (l + r)[k] == r[k - |l|]
    ensures forall k :: 0 <= k < |l| ==> (l + r)[k] == l[k]
  {
    forall k | 0 <= k < |r| ensures r[k].Tok? {
      assert (l + r)[|l| + k] == r[k];
    }
    forall k | 0 <= k < |l| ensures l[k].Tok? {
      assert (l + r)[k] == l[k];
    }
  }

  lemma {:induction false} ItemsAscend(t: string, at: nat, lineno: nat, inFence: bool, i: nat, j: nat)
    requires i < j < |Items(t, at, lineno, inFence)| && AllTok(Items(t, at, lineno, inFence))
    ensures var r := Items(t, at, lineno, inFence); r[i].token.start < r[j].token.start
    decreases |t|
  {
    hide LineItems, IsFence, LineLen, Placed;
    assert t != "";
    hide Items, AllTok;
    ItemsUnfold(t, at, lineno, inFence);
    var n := LineLen(t);
    var f := inFence != IsFence(t[..n]);
    var l, r := LineItems(t[..n], at, lineno, inFence), Items(t[n..], at + n, lineno + 1, f);
    TailItems(l, r);
    if j < |l| {
      TokAt(l, i);
      TokAt(l, j);
      LineItemsAscend(t[..n], at, lineno, inFence, i, j);
    } else if i >= |l| {
      ItemsAscend(t[n..], at + n, lineno + 1, f, i - |l|, j - |l|);
    } else {
      AscendAcross(t, at, lineno, inFence, l, r, i, j - |l|);
    }
  }

  lemma {:induction false} TokAt(items: seq<Item>, i: nat)
    requires AllTok(items) && i < |items|
    ensures items[i] == Tok(items[i].token)
  {
  }

  lemma {:induction false} AscendAcross(t: string, at: nat, lineno: nat, inFence: bool, l: seq<Item>, r: seq<Item>,
      i: nat, j: nat)
    requires t != "" && AllTok(l) && AllTok(r) && i < |l| && j < |r|
    requires l == LineItems(t[..LineLen(t)], at, lineno, inFence)
    requires r == Items(t[LineLen(t)..], at + LineLen(t), lineno + 1, inFence != IsFence(t[..LineLen(t)]))
    ensures l[i].token.start < r[j].token.start
  {
    hide LineItems, Items, IsFence, LineLen, AllTok;
    LineRuns(t, at, lineno, inFence);
    TokAt(l, i);
    TokAt(r, j);
    ItemsUnfold(t, at, lineno, inFence);
    assert Items(t, at, lineno, inFence)[i] == l[i];
    StartsBefore(t, at, lineno, inFence, i);
  }

  lemma {:induction false} StartsBefore(t: string, at: nat, lineno: nat, inFence: bool, i: nat)
    requires i < |Items(t, at, lineno, inFence)| && Items(t, at, lineno, inFence)[i].Tok?
    ensures var k := Items(t, at, lineno, inFence)[i].token; k.start < k.end
  {
    hide Items;
    ItemsPlaced(t, at, lineno, inFence, i);
  }

  lemma {:induction false} LineItemsAscend(line: string, at: nat, lineno: nat, inFence: bool, i: nat, j: nat)
    requires i < j < |LineItems(line, at, lineno, inFence)|
    requires var r := LineItems(line, at, lineno, inFence); r[i].Tok? && r[j].Tok?
    ensures var r := LineItems(line, at, lineno, inFence); r[i].token.start < r[j].token.start
  {
    hide Scan, IsFence, HasStart;
    ScanAscends(line, |line|, false, at, lineno, i, j);
  }
}
