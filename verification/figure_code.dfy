/** When the values of a text can be taken out: exactly when no marker comment outside them moves
    into or out of inline code. */
module FigureCode {
  import opened FigureMarkers
  import opened FigureScan

  // ----- inline code by position -----

  /** What is left of the line from the front of `t` on. */
  function RestLine(t: string): (u: string)
    ensures t != "" ==> u != "" && u[0] == t[0]
  {
    t[..LineLen(t)]
  }

  /** The parity of backticks in the line after one more character. */
  function Next(odd: bool, t: string): bool
    requires t != ""
  {
    !EndsLine(t) && (odd != (t[0] == '`'))
  }

  /** Is the number of backticks between the start of its line and position `p` odd? */
  function OddBefore(t: string, p: nat): bool
    requires p <= |t|
  {
    p > 0 && Next(OddBefore(t, p - 1), t[p - 1..])
  }

  /** Is position `p` inside inline code, judged by the backticks of its line? */
  predicate CodeAt(t: string, p: nat) {
    p < |t| && OddBefore(t, p) && '`' in RestLine(t[p..])
  }

  /** Does a marker comment start at position `p`? */
  predicate CommentAt(t: string, p: nat)
    requires p < |t|
  {
    KeywordLen(RestLine(t[p..])) != 0
  }

  // ----- the scan from the middle of a line -----

  /** The items of `t`, which starts inside a line that is neither a fence nor fenced. */
  ghost function Mid(t: string, odd: bool, at: nat, lineno: nat): seq<Item> {
    var n := LineLen(t);
    Scan(t[..n], n, odd, at, lineno) + Items(t[n..], at + n, lineno + 1, false)
  }

  lemma {:induction false} MidEmpty(odd: bool, at: nat, lineno: nat)
    ensures Mid("", odd, at, lineno) == []
  {
  }

  lemma {:induction false} MidStep(t: string, odd: bool, at: nat, lineno: nat)
    requires t != ""
    ensures Mid(t, odd, at, lineno) == Here(RestLine(t), odd, at, lineno) +
      (if EndsLine(t) then Items(t[1..], at + 1, lineno + 1, false)
        else Mid(t[1..], odd != (t[0] == '`'), at + 1, lineno))
  {
    hide Here, Items, Scan, EndsLine;
    var n := LineLen(t);
    ScanUnfold(t[..n], n, odd, at, lineno);
    LineLenStep(t);
    var h := Here(t[..n], odd, at, lineno);
    if EndsLine(t) {
      assert t[..n][1..] == "";
      ScanNothing("", odd != (t[0] == '`'), at + 1, lineno);
      assert h + [] == h;
    } else {
      assert t[..n][1..] == t[1..][..n - 1] && t[n..] == t[1..][n - 1..];
      var rest := Scan(t[1..][..n - 1], n - 1, odd != (t[0] == '`'), at + 1, lineno);
      assert h + rest + Items(t[n..], at + n, lineno + 1, false) ==
        h + (rest + Items(t[n..], at + n, lineno + 1, false));
    }
  }

  lemma {:induction false} LineLenStep(t: string)
    requires t != ""
    ensures LineLen(t) == if EndsLine(t) then 1 else 1 + LineLen(t[1..])
  {
    hide EndsLine;
  }

  lemma {:induction false} ScanNothing(u: string, odd: bool, at: nat, lineno: nat)
    ensures Scan(u, 0, odd, at, lineno) == []
  {
    hide Here;
  }

  /** A line that is neither a fence nor fenced is scanned from its start. */
  lemma {:induction false} MidOfLine(t: string, at: nat, lineno: nat)
    requires t != "" && !IsFence(RestLine(t))
    ensures Items(t, at, lineno, false) == Mid(t, false, at, lineno)
  {
    hide Scan, IsFence, LineLen, Items;
    ItemsUnfold(t, at, lineno, false);
  }

  lemma {:induction false} DeadItems(line: string, at: nat, lineno: nat, f: bool)
    requires f || IsFence(line)
    ensures AllTok(LineItems(line, at, lineno, f)) ==> LineItems(line, at, lineno, f) == []
  {
    hide Scan, IsFence, HasStart;
    var bad := [Bad(Problem(lineno, InFence))];
    assert !bad[0].Tok? && !AllTok(bad);
  }

  /** Any other line of a text whose items are all tokens has no item. */
  lemma {:induction false} DeadLine(t: string, at: nat, lineno: nat, f: bool)
    requires t != "" && (f || IsFence(RestLine(t)))
    requires AllTok(Items(t, at, lineno, f))
    ensures Items(t, at, lineno, f) == Items(t[LineLen(t)..], at + LineLen(t), lineno + 1, f != IsFence(RestLine(t)))
  {
    hide Scan, IsFence, LineLen, Items, HasStart;
    ItemsUnfold(t, at, lineno, f);
    var l, r := LineItems(RestLine(t), at, lineno, f),
                Items(t[LineLen(t)..], at + LineLen(t), lineno + 1, f != IsFence(RestLine(t)));
    TailItems(l, r);
    DeadItems(RestLine(t), at, lineno, f);
    assert [] + r == r;
  }

  lemma {:induction false} ItemsStart(t: string, at: nat, lineno: nat, f: bool, j: nat)
    requires j < |Items(t, at, lineno, f)| && Items(t, at, lineno, f)[j].Tok?
    ensures Items(t, at, lineno, f)[j].token.start >= at
    ensures Items(t, at, lineno, f)[j].token.end <= at + |t|
  {
    hide Items;
    ItemsPlaced(t, at, lineno, f, j);
  }

  // ----- passing over a value -----

  /** The parity after the value `v`, when `r` follows it. */
  function OddAfter(v: string, r: string, odd: bool): bool {
    if v == "" then odd else OddAfter(v[1..], r, Next(odd, v + r))
  }

  /** Whole lines leave nothing behind. */
  lemma {:induction false} OddLine(v: string, r: string, odd: bool)
    requires v != "" && LineLen(v + r) <= |v| && EndsWhere(v + r)
    ensures OddAfter(v, r, odd) == OddAfter(v[LineLen(v + r)..], r, false)
  {
    hide EndsLine;
    var t := v + r;
    assert t[1..] == v[1..] + r;
    LineLenStep(t);
    if !EndsLine(t) {
      OddLine(v[1..], r, Next(odd, t));
      assert v[1..][LineLen(t) - 1..] == v[LineLen(t)..];
    }
  }

  /** The first line has a terminator. */
  ghost predicate EndsWhere(t: string) {
    t != "" && (EndsLine(t) || EndsWhere(t[1..]))
  }

  lemma {:induction false} LineEndsWhere(t: string)
    requires LineLen(t) < |t|
    ensures EndsWhere(t)
  {
    hide EndsLine;
    LineLenStep(t);
    if !EndsLine(t) {
      LineEndsWhere(t[1..]);
    }
  }

  /** When the next token starts right behind the value `v`, nothing in `v` matters but the parity it
      leaves. */
  lemma {:induction false} PassMid(v: string, r: string, odd: bool, at: nat, lineno: nat) returns (lineno': nat)
    requires r != "" && r[0] == '<' && AllTok(Mid(v + r, odd, at, lineno))
    requires Mid(v + r, odd, at, lineno) != [] && Mid(v + r, odd, at, lineno)[0].token.start == at + |v|
    ensures Mid(v + r, odd, at, lineno) == Mid(r, OddAfter(v, r, odd), at + |v|, lineno')
    decreases |v|, 0
  {
    hide Mid, Here, Items, EndsLine, RestLine, AllTok;
    var t := v + r;
    if v == "" {
      assert t == r;
      lineno' := lineno;
    } else {
      assert t[1..] == v[1..] + r && t[0] == v[0];
      MidStep(t, odd, at, lineno);
      HereFirst(RestLine(t), odd, at, lineno);
      var h := Here(RestLine(t), odd, at, lineno);
      if EndsLine(t) {
        var rest := Items(t[1..], at + 1, lineno + 1, false);
        PassHead(h, rest, at, |v|);
        lineno' := PassLine(v[1..], r, false, at + 1, lineno + 1);
      } else {
        var rest := Mid(t[1..], odd != (t[0] == '`'), at + 1, lineno);
        PassHead(h, rest, at, |v|);
        lineno' := PassMid(v[1..], r, odd != (t[0] == '`'), at + 1, lineno);
      }
    }
  }

  /** Nothing starts here when the first token starts later. */
  lemma {:induction false} PassHead(h: seq<Item>, rest: seq<Item>, at: nat, n: nat)
    requires AllTok(h + rest) && h + rest != [] && (h + rest)[0].token.start == at + n && n > 0
    requires h != [] && h[0].Tok? ==> h[0].token.start == at
    ensures h == [] && AllTok(rest) && h + rest == rest
  {
    TailItems(h, rest);
    HeadOf(h, rest);
    assert [] + rest == rest;
  }

  lemma {:induction false} HeadOf(h: seq<Item>, rest: seq<Item>)
    ensures h != [] ==> (h + rest)[0] == h[0]
  {
  }

  lemma {:induction false} PassLine(v: string, r: string, f: bool, at: nat, lineno: nat) returns (lineno': nat)
    requires r != "" && r[0] == '<' && AllTok(Items(v + r, at, lineno, f))
    requires Items(v + r, at, lineno, f) != [] && Items(v + r, at, lineno, f)[0].token.start == at + |v|
    ensures Items(v + r, at, lineno, f) == Mid(r, OddAfter(v, r, false), at + |v|, lineno')
    decreases |v|, 1
  {
    hide Mid, Items, EndsLine, LineLen, IsFence, AllTok;
    var t := v + r;
    if !f && !IsFence(RestLine(t)) {
      MidOfLine(t, at, lineno);
      lineno' := PassMid(v, r, false, at, lineno);
    } else {
      var m := LineLen(t);
      DeadLine(t, at, lineno, f);
      var f' := f != IsFence(RestLine(t));
      assert AllTok(Items(t[m..], at + m, lineno + 1, f'));
      FirstTok(Items(t[m..], at + m, lineno + 1, f'));
      ItemsStart(t[m..], at + m, lineno + 1, f', 0);
      assert 0 < m <= |v|;
      assert t[m..] == v[m..] + r;
      LineEndsWhere(t);
      OddLine(v, r, false);
      lineno' := PassLine(v[m..], r, f', at + m, lineno + 1);
    }
  }

  lemma {:induction false} FirstTok(items: seq<Item>)
    requires AllTok(items) && items != []
    ensures items[0].Tok?
  {
  }

  // ----- a text with its values, and without -----

  /** A value and the text behind it, up to the next value. */
  datatype Chunk = Chunk(value: string, post: string)

  function Full(a: string, cs: seq<Chunk>): string
    decreases |cs|
  {
    if cs == [] then a else a + (cs[0].value + Full(cs[0].post, cs[1..]))
  }

  function Bare(a: string, cs: seq<Chunk>): string
    decreases |cs|
  {
    if cs == [] then a else a + Bare(cs[0].post, cs[1..])
  }

  /** Values stand between a `>` and a `<`. */
  ghost predicate Joints(cs: seq<Chunk>) {
    forall i :: 0 <= i < |cs| ==>
      cs[i].post != "" && cs[i].post[0] == '<' && (i + 1 < |cs| ==> cs[i].post[|cs[i].post| - 1] == '>')
  }

  ghost predicate EndsPiece(a: string, cs: seq<Chunk>) {
    cs != [] && a != "" ==> a[|a| - 1] == '>'
  }

  /** Where position `x` of the text is once the values are taken out. */
  function Taken(a: string, cs: seq<Chunk>, x: nat): nat
    decreases |cs|
  {
    if x <= |a| || cs == [] then x
    else if x < |a| + |cs[0].value| then |a|
    else |a| + Taken(cs[0].post, cs[1..], x - |a| - |cs[0].value|)
  }

  lemma {:induction false} FullStep(a: string, cs: seq<Chunk>)
    requires a != ""
    ensures Full(a, cs) != "" && Full(a, cs)[0] == a[0] && Full(a, cs)[1..] == Full(a[1..], cs)
    ensures Bare(a, cs) != "" && Bare(a, cs)[0] == a[0] && Bare(a, cs)[1..] == Bare(a[1..], cs)
  {
    if cs != [] {
      var v := cs[0].value + Full(cs[0].post, cs[1..]);
      assert (a + v)[1..] == a[1..] + v;
      var w := Bare(cs[0].post, cs[1..]);
      assert (a + w)[1..] == a[1..] + w;
    }
  }

  lemma {:induction false} TakenStep(a: string, cs: seq<Chunk>, x: nat)
    requires a != ""
    ensures x > 0 ==> Taken(a, cs, x) == 1 + Taken(a[1..], cs, x - 1)
    ensures x > 0 ==> Taken(a, cs, x) > 0
    ensures Taken(a, cs, 0) == 0
  {
  }

  /** Both texts share the piece in front. */
  lemma {:induction false} SameFront(a: string, cs: seq<Chunk>)
    ensures Same(Full(a, cs), Bare(a, cs), |a|)
    ensures cs == [] ==> Full(a, cs) == Bare(a, cs) == a
    ensures |Full(a, cs)| >= |a| && forall i :: 0 <= i < |a| ==> Full(a, cs)[i] == a[i]
  {
  }

  lemma {:induction false} SameEnds(a: string, cs: seq<Chunk>)
    requires a != "" && EndsPiece(a, cs)
    ensures EndsLine(Full(a, cs)) == EndsLine(Bare(a, cs))
    ensures EndsLine(Full(a, cs)) && cs != [] ==> |a| > 1
  {
    hide Full, Bare;
    SameFront(a, cs);
  }

  /** The rest of the line is the same in both texts, or runs through the piece to its `>` in both. */
  lemma {:induction false} SameRest(a: string, cs: seq<Chunk>)
    requires a != "" && EndsPiece(a, cs)
    ensures var u, u' := RestLine(Full(a, cs)), RestLine(Bare(a, cs));
      u == u' || (cs != [] && Same(u, u', |a|) && u[|a| - 1] == '>')
    ensures cs == [] || |RestLine(Full(a, cs))| < |a| ==> RestLine(Full(a, cs)) == RestLine(Bare(a, cs))
    ensures |RestLine(Full(a, cs))| < |a| || cs == [] ==> |RestLine(Full(a, cs))| <= |a|
  {
    hide Full, Bare, LineLen;
    SameFront(a, cs);
    var t, e := Full(a, cs), Bare(a, cs);
    if cs != [] {
      if LineLen(t) < |a| {
        LineLenPrefix(t, e, |a|);
        SameSlice(t, e, |a|, 0, LineLen(t));
      } else {
        if LineLen(e) < |a| {
          SameBack(t, e, |a|);
          LineLenPrefix(e, t, |a|);
        }
        SameSlice(t, e, |a|, 0, |a|);
        assert forall i :: 0 <= i < |a| ==> t[..LineLen(t)][i] == t[i] && e[..LineLen(e)][i] == e[i];
      }
    }
  }

  lemma {:induction false} SameBack(t: string, e: string, p: nat)
    requires Same(t, e, p)
    ensures Same(e, t, p)
  {
  }

  lemma {:induction false} SameComment(a: string, cs: seq<Chunk>)
    requires a != "" && EndsPiece(a, cs)
    ensures var u, u' := RestLine(Full(a, cs)), RestLine(Bare(a, cs));
      KeywordLen(u) == KeywordLen(u') && (KeywordLen(u) != 0 ==> Classify(u) == Classify(u'))
  {
    hide Full, Bare, RestLine, KeywordLen, Classify;
    SameRest(a, cs);
    var u, u' := RestLine(Full(a, cs)), RestLine(Bare(a, cs));
    if u != u' {
      TokenPrefix(u, u', |a|);
    }
  }

  // ----- the two scans side by side -----

  /** The same comment, at the place it has once the values are taken out. */
  ghost predicate Match(x: Item, y: Item, a: string, cs: seq<Chunk>, at: nat, at': nat) {
    x.Tok? && y.Tok? && (x.token.Open? <==> y.token.Open?) &&
    (x.token.Open? ==> y.token.name == x.token.name && y.token.floor == x.token.floor) &&
    at <= x.token.start && at <= x.token.end &&
    y.token.start == at' + Taken(a, cs, x.token.start - at) && y.token.end == at' + Taken(a, cs, x.token.end - at)
  }

  ghost predicate Corresponds(xs: seq<Item>, ys: seq<Item>, a: string, cs: seq<Chunk>, at: nat, at': nat) {
    |xs| == |ys| && forall i :: 0 <= i < |xs| ==> Match(xs[i], ys[i], a, cs, at, at')
  }

  /** The values stand between consecutive tokens: `n` of the items lie in the front piece. */
  ghost predicate Between(a: string, cs: seq<Chunk>, items: seq<Item>, at: nat, n: nat)
    decreases |cs|
  {
    AllTok(items) &&
    (cs != [] ==>
       n < |items| && items[n].token.start == at + |a| + |cs[0].value| &&
       (n == 0 ==> NoBreak(a)) &&
         (n > 0 ==> items[n - 1].token.end == at + |a| && items[n - 1].token.start + 10 <= at + |a|) &&
       Between(cs[0].post, cs[1..], items[n..], at + |a| + |cs[0].value|, 2))
  }

  /** Comments outside the values are in inline code in both texts or in neither. */
  ghost predicate Agree(a: string, cs: seq<Chunk>, odd: bool, odd': bool)
    decreases |cs|, |a|
  {
    if a == "" then
      cs == [] || Agree(cs[0].post, cs[1..], OddAfter(cs[0].value, Full(cs[0].post, cs[1..]), odd), odd')
    else
      FullStep(a, cs);
      AgreeHere(a, cs, odd, odd') && Agree(a[1..], cs, Next(odd, Full(a, cs)), Next(odd', Bare(a, cs)))
  }

  ghost predicate AgreeHere(a: string, cs: seq<Chunk>, odd: bool, odd': bool) {
    var u, u' := RestLine(Full(a, cs)), RestLine(Bare(a, cs));
    KeywordLen(u) != 0 ==> ((odd && '`' in u) == (odd' && '`' in u'))
  }

  lemma {:induction false} AgreeStep(a: string, cs: seq<Chunk>, odd: bool, odd': bool)
    requires a != ""
    ensures Full(a, cs) != "" && Bare(a, cs) != ""
    ensures Agree(a, cs, odd, odd') <==>
      AgreeHere(a, cs, odd, odd') && Agree(a[1..], cs, Next(odd, Full(a, cs)), Next(odd', Bare(a, cs)))
  {
    hide AgreeHere, Full, Bare;
    FullStep(a, cs);
  }

  lemma {:induction false} TakenSkip(a: string, cs: seq<Chunk>, m: nat, x: nat)
    requires m <= |a| && m <= x
    ensures Taken(a, cs, x) == m + Taken(a[m..], cs, x - m)
  {
  }

  lemma {:induction false} MatchSkip(x: Item, y: Item, a: string, cs: seq<Chunk>, at: nat, at': nat, m: nat)
    requires m <= |a| && x.Tok? && y.Tok? && x.token.start >= at + m && x.token.end >= at + m
    ensures Match(x, y, a, cs, at, at') <==> Match(x, y, a[m..], cs, at + m, at' + m)
  {
    hide Taken;
    TakenSkip(a, cs, m, x.token.start - at);
    TakenSkip(a, cs, m, x.token.end - at);
  }

  ghost predicate From(items: seq<Item>, at: nat) {
    forall i :: 0 <= i < |items| && items[i].Tok? ==> items[i].token.start >= at && items[i].token.end >= at
  }

  lemma {:induction false} CorrespondsSkip(xs: seq<Item>, ys: seq<Item>, a: string, cs: seq<Chunk>, at: nat, at': nat,
      m: nat)
    requires m <= |a| && From(xs, at + m)
    ensures Corresponds(xs, ys, a, cs, at, at') <==> Corresponds(xs, ys, a[m..], cs, at + m, at' + m)
  {
    hide Match;
    if |xs| == |ys| {
      forall i | 0 <= i < |xs|
        ensures Match(xs[i], ys[i], a, cs, at, at') <==> Match(xs[i], ys[i], a[m..], cs, at + m, at' + m)
      {
        if xs[i].Tok? && ys[i].Tok? {
          MatchSkip(xs[i], ys[i], a, cs, at, at', m);
        } else {
          NoMatch(xs[i], ys[i], a, cs, at, at');
          NoMatch(xs[i], ys[i], a[m..], cs, at + m, at' + m);
        }
      }
    }
  }

  lemma {:induction false} NoMatch(x: Item, y: Item, a: string, cs: seq<Chunk>, at: nat, at': nat)
    requires !x.Tok? || !y.Tok?
    ensures !Match(x, y, a, cs, at, at')
  {
  }

  /** Lists that start here in one text only do not correspond. */
  lemma {:induction false} StartsApart(xs: seq<Item>, ys: seq<Item>, a: string, cs: seq<Chunk>, at: nat, at': nat)
    requires a != "" && xs != [] && ys != []
    requires xs[0].Tok? && ys[0].Tok? ==> ((xs[0].token.start == at) != (ys[0].token.start == at'))
    ensures !Corresponds(xs, ys, a, cs, at, at')
  {
    hide Taken;
    if xs[0].Tok? && xs[0].token.start >= at {
      TakenStep(a, cs, xs[0].token.start - at);
    }
    assert !Match(xs[0], ys[0], a, cs, at, at');
  }

  lemma {:induction false} CorrespondsCons(x: Item, y: Item, xs: seq<Item>, ys: seq<Item>, a: string, cs: seq<Chunk>,
      at: nat, at': nat)
    ensures Corresponds([x] + xs, [y] + ys, a, cs, at, at') <==>
      Match(x, y, a, cs, at, at') && Corresponds(xs, ys, a, cs, at, at')
  {
    hide Match;
    var l, r := [x] + xs, [y] + ys;
    assert l[0] == x && r[0] == y;
    assert forall i :: 0 <= i < |xs| ==> l[i + 1] == xs[i];
    assert forall i :: 0 <= i < |ys| ==> r[i + 1] == ys[i];
    if Corresponds(l, r, a, cs, at, at') {
      forall i | 0 <= i < |xs| ensures Match(xs[i], ys[i], a, cs, at, at') {
        assert Match(l[i + 1], r[i + 1], a, cs, at, at');
      }
    }
    if |xs| == |ys| && Match(x, y, a, cs, at, at') && Corresponds(xs, ys, a, cs, at, at') {
      forall i | 0 <= i < |l| ensures Match(l[i], r[i], a, cs, at, at') {
        if i > 0 {
          assert l[i] == xs[i - 1] && r[i] == ys[i - 1];
        }
      }
    }
  }

  // ----- one character -----

  lemma {:induction false} ShapeWithin(u: string, p: nat)
    requires KeywordLen(u) != 0 && !Classify(u).BadShape? && KeywordLen(u) < p <= |u| && u[p - 1] == '>'
    ensures 0 < Classify(u).len <= p
  {
    hide KeywordLen, IsClosing, Trim, Decide;
    var k := KeywordLen(u);
    var g := Find(u, k, '>');
    assert g <= p - 1;
    DecidePlain(IsClosing(u), Trim(u[k..g - 2]), g + 1);
  }

  /** A comment in the front piece ends in it. */
  lemma {:induction false} CommentInPiece(a: string, cs: seq<Chunk>)
    requires a != "" && EndsPiece(a, cs)
    requires var u := RestLine(Full(a, cs)); KeywordLen(u) != 0 && !Classify(u).BadShape?
    ensures 0 < Classify(RestLine(Full(a, cs))).len <= |a|
  {
    hide Full, Bare, RestLine, KeywordLen, Classify;
    var u, u' := RestLine(Full(a, cs)), RestLine(Bare(a, cs));
    SameRest(a, cs);
    TokenInterior(u);
    assert GoodLen(u, Classify(u).len);
    assert 0 < Classify(u).len <= |u|;
    if cs != [] && |u| >= |a| {
      LongRest(a, cs);
      KeywordBelow(u, |a|);
      ShapeWithin(u, |a|);
    }
  }

  lemma {:induction false} LongRest(a: string, cs: seq<Chunk>)
    requires a != "" && cs != [] && EndsPiece(a, cs) && |RestLine(Full(a, cs))| >= |a|
    ensures RestLine(Full(a, cs))[|a| - 1] == '>'
  {
    hide Full, LineLen;
    SameFront(a, cs);
  }

  lemma {:induction false} KeywordBelow(u: string, p: nat)
    requires 0 < p <= |u| && u[p - 1] == '>'
    ensures KeywordLen(u) < p
  {
    hide KeywordLen, Classify;
    TokenPrefix(u, u, p);
  }

  /** The comment that starts here, in both texts. */
  lemma {:induction false} HerePair(a: string, cs: seq<Chunk>, odd: bool, odd': bool, at: nat, lineno: nat, at': nat,
      lineno': nat)
    requires a != "" && EndsPiece(a, cs)
    requires AllTok(Here(RestLine(Full(a, cs)), odd, at, lineno))
    ensures var h, h' := Here(RestLine(Full(a, cs)), odd, at, lineno), Here(RestLine(Bare(a, cs)), odd', at', lineno');
      |h| <= 1 && |h'| <= 1 && (|h| == |h'| <==> AgreeHere(a, cs, odd, odd')) &&
      (h != [] ==> h[0].token.start == at && at + 10 <= h[0].token.end <= at + |a| &&
                     h[0].token.end <= at + |RestLine(Full(a, cs))|) &&
      (h != [] && h' != [] ==> Match(h[0], h'[0], a, cs, at, at')) &&
      (h' != [] && h'[0].Tok? ==> h'[0].token.start == at')
  {
    hide Full, Bare, RestLine, KeywordLen, Classify, Taken;
    var u, u' := RestLine(Full(a, cs)), RestLine(Bare(a, cs));
    SameComment(a, cs);
    HereFirst(u', odd', at', lineno');
    HereFirst(u, odd, at, lineno);
    KeywordFront(u);
    if Starts(u, odd) {
      assert Here(u, odd, at, lineno)[0].Tok?;
      CommentInPiece(a, cs);
      TokenInterior(u);
      TakenFront(a, cs, 0);
      TakenFront(a, cs, Classify(u).len);
    }
  }

  lemma {:induction false} TakenFront(a: string, cs: seq<Chunk>, x: nat)
    requires x <= |a|
    ensures Taken(a, cs, x) == x
  {
  }

  lemma {:induction false} ItemsFrom(t: string, at: nat, lineno: nat, f: bool)
    ensures From(Items(t, at, lineno, f), at)
  {
    hide Items;
    var items := Items(t, at, lineno, f);
    forall i | 0 <= i < |items| && items[i].Tok? ensures items[i].token.start >= at && items[i].token.end >= at {
      ItemsPlaced(t, at, lineno, f, i);
    }
  }

  lemma {:induction false} MidFrom(t: string, odd: bool, at: nat, lineno: nat)
    ensures From(Mid(t, odd, at, lineno), at)
  {
    hide Items, Scan, LineLen;
    var n := LineLen(t);
    var l, r := Scan(t[..n], n, odd, at, lineno), Items(t[n..], at + n, lineno + 1, false);
    ItemsFrom(t[n..], at + n, lineno + 1, false);
    forall i | 0 <= i < |l| && l[i].Tok? ensures l[i].token.start >= at && l[i].token.end >= at {
      var _ := ScanTok(t[..n], n, odd, at, lineno, i);
    }
  }

  /** One character of the piece in front: what starts there, and what follows. */
  lemma {:induction false} CorrespondsHere(h: seq<Item>, xs: seq<Item>, h': seq<Item>, ys: seq<Item>, a: string,
      cs: seq<Chunk>, at: nat, at': nat)
    requires a != "" && |h| <= 1 && |h'| <= 1 && From(xs, at + 1) && From(ys, at' + 1)
    requires h != [] && h[0].Tok? ==> h[0].token.start == at
    requires h' != [] && h'[0].Tok? ==> h'[0].token.start == at'
    requires h != [] && h' != [] ==> Match(h[0], h'[0], a, cs, at, at')
    ensures Corresponds(h + xs, h' + ys, a, cs, at, at') <==>
      |h| == |h'| && Corresponds(xs, ys, a[1..], cs, at + 1, at' + 1)
  {
    hide Match, Corresponds;
    CorrespondsSkip(xs, ys, a, cs, at, at', 1);
    if h == [] && h' == [] {
      assert h + xs == xs && h' + ys == ys;
    } else if h != [] && h' != [] {
      assert h == [h[0]] && h' == [h'[0]];
      CorrespondsCons(h[0], h'[0], xs, ys, a, cs, at, at');
    } else {
      Uneven(h, xs, h', ys, a, cs, at, at');
    }
  }

  lemma {:induction false} Uneven(h: seq<Item>, xs: seq<Item>, h': seq<Item>, ys: seq<Item>, a: string, cs: seq<Chunk>,
      at: nat, at': nat)
    requires a != "" && |h| <= 1 && |h'| <= 1 && |h| != |h'| && From(xs, at + 1) && From(ys, at' + 1)
    requires h != [] && h[0].Tok? ==> h[0].token.start == at
    requires h' != [] && h'[0].Tok? ==> h'[0].token.start == at'
    ensures !Corresponds(h + xs, h' + ys, a, cs, at, at')
  {
    hide Match;
    var l, r := h + xs, h' + ys;
    if l != [] && r != [] {
      assert l[0] == if h != [] then h[0] else xs[0];
      assert r[0] == if h' != [] then h'[0] else ys[0];
      StartsApart(l, r, a, cs, at, at');
    }
  }

  /** A line that runs through the piece to its `>` has no break in the piece. */
  lemma {:induction false} UnbrokenPiece(a: string, cs: seq<Chunk>)
    requires a != "" && cs != [] && EndsPiece(a, cs) && |RestLine(Full(a, cs))| >= |a|
    ensures NoBreak(a) && NoBreak(a[1..])
  {
    hide Full, LineLen, IsBreak;
    var t := Full(a, cs);
    SameFront(a, cs);
    LineLenEnd(t);
    GreaterUnbroken();
    forall i | 0 <= i < |a| ensures !IsBreak(a[i]) {
      assert t[i] == a[i] && t[|a| - 1] == '>';
    }
  }

  lemma {:induction false} GreaterUnbroken()
    ensures !IsBreak('>')
  {
  }

  lemma {:induction false} BetweenStep(a: string, cs: seq<Chunk>, h: seq<Item>, rest: seq<Item>, at: nat, n: nat)
    returns (n': nat)
    requires a != "" && Between(a, cs, h + rest, at, n) && |h| <= 1
    requires h != [] ==>
      h[0].Tok? && h[0].token.start == at && (h[0].token.end == at + |a| && cs != [] ==> NoBreak(a[1..]))
    ensures Between(a[1..], cs, rest, at + 1, n')
    ensures cs != [] ==> n' == n - |h|
  {
    hide NoBreak;
    TailItems(h, rest);
    NoBreakTail(a);
    if cs == [] {
      n' := 0;
    } else {
      assert h != [] ==> (h + rest)[0] == h[0] && n > 0;
      n' := n - |h|;
      assert rest[n'] == (h + rest)[n];
      assert n' > 0 ==> rest[n' - 1] == (h + rest)[n - 1];
      assert n' == 0 && n > 0 ==> (h + rest)[n - 1] == h[0];
      assert (h + rest)[n..] == rest[n'..];
    }
  }

  lemma {:induction false} NoBreakTail(a: string)
    requires a != ""
    ensures NoBreak(a) ==> NoBreak(a[1..])
  {
    hide IsBreak;
  }

  lemma {:induction false} AgreeLine(a: string, cs: seq<Chunk>, odd: bool)
    requires a != "" && EndsPiece(a, cs) && RestLine(Full(a, cs)) == RestLine(Bare(a, cs))
    requires LineLen(Full(a, cs)) <= |a| && (cs != [] ==> LineLen(Full(a, cs)) < |a|)
    ensures Agree(a, cs, odd, odd) <==> Agree(a[LineLen(Full(a, cs))..], cs, false, false)
    decreases |a|
  {
    hide Full, Bare, Agree, EndsLine, KeywordLen;
    var t, e := Full(a, cs), Bare(a, cs);
    AgreeStep(a, cs, odd, odd);
    FullStep(a, cs);
    SameEnds(a, cs);
    LineLenStep(t);
    LineLenStep(e);
    if EndsLine(t) {
    } else if a[1..] == "" {
      assert a[LineLen(t)..] == "";
      AgreeNothing(cs);
    } else {
      RestStep(t);
      RestStep(e);
      AgreeLine(a[1..], cs, Next(odd, t));
      assert a[1..][LineLen(t) - 1..] == a[LineLen(t)..];
    }
  }

  lemma {:induction false} AgreeNothing(cs: seq<Chunk>)
    ensures cs == [] ==> forall odd, odd' :: Agree("", cs, odd, odd')
  {
  }

  lemma {:induction false} RestStep(t: string)
    requires t != "" && !EndsLine(t)
    ensures RestLine(t)[1..] == RestLine(t[1..])
  {
    hide EndsLine;
    LineLenStep(t);
  }

  /** A fence is a fence in both texts, once a token is known to end the piece. */
  lemma {:induction false} SameFence(a: string, cs: seq<Chunk>, at: nat, lineno: nat, f: bool, n: nat)
    requires a != "" && EndsPiece(a, cs) && Between(a, cs, Items(Full(a, cs), at, lineno, f), at, n) && n > 0
    ensures IsFence(RestLine(Full(a, cs))) == IsFence(RestLine(Bare(a, cs)))
  {
    hide Full, Bare, RestLine, IsFence, Items, EndsPiece;
    SameRest(a, cs);
    var u, u' := RestLine(Full(a, cs)), RestLine(Bare(a, cs));
    if u != u' {
      var items := Items(Full(a, cs), at, lineno, f);
      ItemsPlaced(Full(a, cs), at, lineno, f, n - 1);
      var m := items[n - 1].token.start - at;
      RestIs(Full(a, cs), m);
      FencePrefix(u, u', |a|, m);
    }
  }

  lemma {:induction false} RestIs(t: string, m: nat)
    ensures m < |RestLine(t)| ==> RestLine(t)[m] == t[m]
  {
    hide LineLen;
  }

  lemma {:induction false} DeadToo(t: string, e: string, at: nat, lineno: nat, at': nat, lineno': nat, f: bool)
    requires t != "" && e != "" && RestLine(t) == RestLine(e) && (f || IsFence(RestLine(t)))
    requires AllTok(Items(t, at, lineno, f))
    ensures Items(e, at', lineno', f) ==
      Items(e[LineLen(e)..], at' + LineLen(e), lineno' + 1, f != IsFence(RestLine(e)))
  {
    hide LineLen, Items, LineItems, IsFence, AllTok;
    ItemsUnfold(t, at, lineno, f);
    ItemsUnfold(e, at', lineno', f);
    TailItems(LineItems(RestLine(t), at, lineno, f),
      Items(t[LineLen(t)..], at + LineLen(t), lineno + 1, f != IsFence(RestLine(t))));
    DeadItems(RestLine(t), at, lineno, f);
    LineItemsMoved(RestLine(t), at, at', lineno, f);
    LineItemsCount(RestLine(t), at', lineno, lineno', f);
    var r := Items(e[LineLen(e)..], at' + LineLen(e), lineno' + 1, f != IsFence(RestLine(e)));
    assert [] + r == r;
  }

  lemma {:induction false} LineItemsCount(line: string, at: nat, lineno: nat, lineno': nat, f: bool)
    requires f || IsFence(line)
    ensures LineItems(line, at, lineno, f) == [] <==> LineItems(line, at, lineno', f) == []
  {
    hide IsFence, Scan, HasStart;
  }

  lemma {:induction false} NoneInFront(a: string, cs: seq<Chunk>, items: seq<Item>, at: nat, n: nat)
    requires a == "" && cs != [] && Between(a, cs, items, at, n) && From(items, at)
    ensures n == 0
  {
  }

  lemma {:induction false} TakenAcross(cs: seq<Chunk>, x: nat)
    requires cs != [] && x >= |cs[0].value|
    ensures Taken("", cs, x) == Taken(cs[0].post, cs[1..], x - |cs[0].value|)
  {
  }

  lemma {:induction false} CorrespondsAcross(xs: seq<Item>, ys: seq<Item>, cs: seq<Chunk>, at: nat, at': nat)
    requires cs != [] && From(xs, at + |cs[0].value|)
    ensures Corresponds(xs, ys, "", cs, at, at') <==> Corresponds(xs, ys, cs[0].post, cs[1..], at + |cs[0].value|, at')
  {
    hide Match;
    var k := |cs[0].value|;
    if |xs| == |ys| {
      forall i | 0 <= i < |xs|
        ensures Match(xs[i], ys[i], "", cs, at, at') <==> Match(xs[i], ys[i], cs[0].post, cs[1..], at + k, at')
      {
        if xs[i].Tok? && ys[i].Tok? {
          MatchAcross(xs[i], ys[i], cs, at, at');
        } else {
          NoMatch(xs[i], ys[i], "", cs, at, at');
          NoMatch(xs[i], ys[i], cs[0].post, cs[1..], at + k, at');
        }
      }
    }
  }

  lemma {:induction false} MatchAcross(x: Item, y: Item, cs: seq<Chunk>, at: nat, at': nat)
    requires cs != [] && x.Tok? && y.Tok?
    requires x.token.start >= at + |cs[0].value| && x.token.end >= at + |cs[0].value|
    ensures Match(x, y, "", cs, at, at') <==> Match(x, y, cs[0].post, cs[1..], at + |cs[0].value|, at')
  {
    hide Taken;
    TakenAcross(cs, x.token.start - at);
    TakenAcross(cs, x.token.end - at);
  }

  lemma {:induction false} JointsTail(cs: seq<Chunk>)
    requires Joints(cs) && cs != []
    ensures Joints(cs[1..]) && EndsPiece(cs[0].post, cs[1..]) && cs[0].post != "" && cs[0].post[0] == '<'
  {
    assert forall i :: 0 <= i < |cs| - 1 ==> cs[1..][i] == cs[i + 1];
  }

  lemma {:induction false} FullFront(cs: seq<Chunk>)
    requires cs != [] && cs[0].post != ""
    ensures var r := Full(cs[0].post, cs[1..]);
      Full("", cs) == cs[0].value + r && r != "" && r[0] == cs[0].post[0] && Bare("", cs) == Bare(cs[0].post, cs[1..])
  {
    hide Full, Bare;
    FullStep(cs[0].post, cs[1..]);
    FullEmpty(cs);
  }

  lemma {:induction false} FullEmpty(cs: seq<Chunk>)
    requires cs != []
    ensures Full("", cs) == cs[0].value + Full(cs[0].post, cs[1..]) && Bare("", cs) == Bare(cs[0].post, cs[1..])
  {
    assert "" + (cs[0].value + Full(cs[0].post, cs[1..])) == cs[0].value + Full(cs[0].post, cs[1..]);
    assert "" + Bare(cs[0].post, cs[1..]) == Bare(cs[0].post, cs[1..]);
  }

  // ----- the walk -----

  /** From the middle of a line on, the two scans correspond exactly when the comments agree on inline
      code. */
  lemma {:induction false} WalkMid(a: string, cs: seq<Chunk>, odd: bool, odd': bool, at: nat, lineno: nat, at': nat,
      lineno': nat, n: nat)
    requires Joints(cs) && EndsPiece(a, cs) && Between(a, cs, Mid(Full(a, cs), odd, at, lineno), at, n)
    ensures Corresponds(Mid(Full(a, cs), odd, at, lineno), Mid(Bare(a, cs), odd', at', lineno'), a, cs, at, at')
      <==> Agree(a, cs, odd, odd')
    decreases |cs|, |a|, 0
  {
    hide Mid, Full, Bare, Corresponds, Between, Joints, Agree;
    if a == "" && cs == [] {
      WalkNothing(odd, odd', at, lineno, at', lineno');
    } else if a == "" {
      WalkValue(cs, odd, odd', at, lineno, at', lineno', n);
    } else {
      WalkStep(a, cs, odd, odd', at, lineno, at', lineno', n);
    }
  }

  lemma {:induction false} WalkNothing(odd: bool, odd': bool, at: nat, lineno: nat, at': nat, lineno': nat)
    ensures Corresponds(Mid(Full("", []), odd, at, lineno), Mid(Bare("", []), odd', at', lineno'), "", [], at, at')
    ensures Agree("", [], odd, odd')
  {
    hide Mid;
    MidEmpty(odd, at, lineno);
    MidEmpty(odd', at', lineno');
  }

  lemma {:induction false} BetweenValue(cs: seq<Chunk>, items: seq<Item>, at: nat)
    requires cs != [] && Between("", cs, items, at, 0)
    ensures AllTok(items) && items != [] && items[0].token.start == at + |cs[0].value|
    ensures Between(cs[0].post, cs[1..], items, at + |cs[0].value|, 2)
  {
    assert items[0..] == items;
  }

  lemma {:induction false} AgreeValue(cs: seq<Chunk>, odd: bool, odd': bool)
    requires cs != []
    ensures Agree("", cs, odd, odd') <==>
      Agree(cs[0].post, cs[1..], OddAfter(cs[0].value, Full(cs[0].post, cs[1..]), odd), odd')
  {
  }

  lemma {:induction false} WalkValue(cs: seq<Chunk>, odd: bool, odd': bool, at: nat, lineno: nat, at': nat,
      lineno': nat, n: nat)
    requires cs != [] && Joints(cs) && Between("", cs, Mid(Full("", cs), odd, at, lineno), at, n)
    ensures Corresponds(Mid(Full("", cs), odd, at, lineno), Mid(Bare("", cs), odd', at', lineno'), "", cs, at, at')
      <==> Agree("", cs, odd, odd')
    decreases |cs|, 0, 0, 0
  {
    hide Mid, Full, Bare, Corresponds, Between, Joints, Agree, OddAfter;
    var v, post, rest := cs[0].value, cs[0].post, cs[1..];
    JointsTail(cs);
    FullFront(cs);
    var r := Full(post, rest);
    MidFrom(v + r, odd, at, lineno);
    NoneInFront("", cs, Mid(v + r, odd, at, lineno), at, n);
    BetweenValue(cs, Mid(v + r, odd, at, lineno), at);
    var l := PassMid(v, r, odd, at, lineno);
    var odd2 := OddAfter(v, r, odd);
    WalkMid(post, rest, odd2, odd', at + |v|, l, at', lineno', 2);
    MidFrom(r, odd2, at + |v|, l);
    CorrespondsAcross(Mid(r, odd2, at + |v|, l), Mid(Bare(post, rest), odd', at', lineno'), cs, at, at');
    AgreeValue(cs, odd, odd');
  }

  lemma {:induction false} WalkStep(a: string, cs: seq<Chunk>, odd: bool, odd': bool, at: nat, lineno: nat, at': nat,
      lineno': nat, n: nat)
    requires a != "" && Joints(cs) && EndsPiece(a, cs) && Between(a, cs, Mid(Full(a, cs), odd, at, lineno), at, n)
    ensures Corresponds(Mid(Full(a, cs), odd, at, lineno), Mid(Bare(a, cs), odd', at', lineno'), a, cs, at, at')
      <==> Agree(a, cs, odd, odd')
    decreases |cs|, |a|, 0, 0
  {
    hide Mid, Full, Bare, Corresponds, Between, Joints, Agree, Items, EndsLine, Here, AgreeHere, RestLine, Match, From,
      AllTok;
    var t, e := Full(a, cs), Bare(a, cs);
    FullStep(a, cs);
    MidStep(t, odd, at, lineno);
    MidStep(e, odd', at', lineno');
    SameEnds(a, cs);
    AgreeStep(a, cs, odd, odd');
    var h, h' := Here(RestLine(t), odd, at, lineno), Here(RestLine(e), odd', at', lineno');
    var rest := if EndsLine(t) then Items(t[1..], at + 1, lineno + 1, false)
      else Mid(t[1..], odd != (t[0] == '`'), at + 1, lineno);
    var rest' := if EndsLine(e) then Items(e[1..], at' + 1, lineno' + 1, false)
      else Mid(e[1..], odd' != (e[0] == '`'), at' + 1, lineno');
    BetweenTok(a, cs, h + rest, at, n);
    TailItems(h, rest);
    HerePair(a, cs, odd, odd', at, lineno, at', lineno');
    if h != [] {
      FirstTok(h);
      if cs != [] && h[0].token.end == at + |a| { UnbrokenPiece(a, cs); }
    }
    var n' := BetweenStep(a, cs, h, rest, at, n);
    EndsTail(a, cs);
    if EndsLine(t) {
      BreakHere(t, odd, at, lineno);
      BrokenPiece(a, cs, h + rest, at, n);
      WalkLine(a[1..], cs, false, at + 1, lineno + 1, at' + 1, lineno' + 1, n');
      ItemsFrom(t[1..], at + 1, lineno + 1, false);
      ItemsFrom(e[1..], at' + 1, lineno' + 1, false);
    } else {
      WalkMid(a[1..], cs, odd != (t[0] == '`'), odd' != (e[0] == '`'), at + 1, lineno, at' + 1, lineno', n');
      MidFrom(t[1..], odd != (t[0] == '`'), at + 1, lineno);
      MidFrom(e[1..], odd' != (e[0] == '`'), at' + 1, lineno');
    }
    CorrespondsHere(h, rest, h', rest', a, cs, at, at');
  }

  lemma {:induction false} BetweenTok(a: string, cs: seq<Chunk>, items: seq<Item>, at: nat, n: nat)
    requires Between(a, cs, items, at, n)
    ensures AllTok(items)
  {
  }

  lemma {:induction false} EndsTail(a: string, cs: seq<Chunk>)
    requires a != "" && EndsPiece(a, cs)
    ensures EndsPiece(a[1..], cs)
  {
  }

  lemma {:induction false} BreakHere(t: string, odd: bool, at: nat, lineno: nat)
    requires t != "" && EndsLine(t)
    ensures Here(RestLine(t), odd, at, lineno) == []
  {
    hide Classify, LineLen;
  }

  /** A piece with a break in it has its last token still ahead. */
  lemma {:induction false} BrokenPiece(a: string, cs: seq<Chunk>, items: seq<Item>, at: nat, n: nat)
    requires a != "" && EndsLine(Full(a, cs)) && Between(a, cs, items, at, n)
    ensures cs != [] ==> n > 0
  {
    hide Full;
    FullStep(a, cs);
  }

  /** The same from the start of a line on. */
  lemma {:induction false} WalkLine(a: string, cs: seq<Chunk>, f: bool, at: nat, lineno: nat, at': nat, lineno': nat,
      n: nat)
    requires Joints(cs) && EndsPiece(a, cs) && Between(a, cs, Items(Full(a, cs), at, lineno, f), at, n)
    requires cs != [] ==> a != "" && n > 0
    ensures Corresponds(Items(Full(a, cs), at, lineno, f), Items(Bare(a, cs), at', lineno', f), a, cs, at, at')
      <==> Agree(a, cs, false, false)
    decreases |cs|, |a|, 1
  {
    hide Mid, Full, Bare, Corresponds, Between, Joints, Agree, Items, IsFence, RestLine, EndsPiece;
    if a == "" {
      LinesNothing(f, at, lineno, at', lineno');
    } else {
      var t, e := Full(a, cs), Bare(a, cs);
      FullStep(a, cs);
      FenceInBoth(a, cs, f, at, lineno, n);
      if !f && !IsFence(RestLine(t)) {
        MidOfLine(t, at, lineno);
        MidOfLine(e, at', lineno');
        WalkMid(a, cs, false, false, at, lineno, at', lineno', n);
      } else {
        WalkDead(a, cs, f, at, lineno, at', lineno', n);
      }
    }
  }

  lemma {:induction false} LinesNothing(f: bool, at: nat, lineno: nat, at': nat, lineno': nat)
    ensures Corresponds(Items(Full("", []), at, lineno, f), Items(Bare("", []), at', lineno', f), "", [], at, at')
    ensures Agree("", [], false, false)
  {
  }

  lemma {:induction false} FenceInBoth(a: string, cs: seq<Chunk>, f: bool, at: nat, lineno: nat, n: nat)
    requires a != "" && EndsPiece(a, cs) && Between(a, cs, Items(Full(a, cs), at, lineno, f), at, n)
    requires cs != [] ==> n > 0
    ensures IsFence(RestLine(Full(a, cs))) == IsFence(RestLine(Bare(a, cs)))
  {
    hide Full, Bare, Between, Items, IsFence, RestLine;
    if cs == [] {
      SameFront(a, cs);
    } else {
      SameFence(a, cs, at, lineno, f, n);
    }
  }

  lemma {:induction false} WalkDead(a: string, cs: seq<Chunk>, f: bool, at: nat, lineno: nat, at': nat, lineno': nat,
      n: nat)
    requires a != "" && Joints(cs) && EndsPiece(a, cs) && Between(a, cs, Items(Full(a, cs), at, lineno, f), at, n)
    requires (cs != [] ==> n > 0) && (f || IsFence(RestLine(Full(a, cs))))
    ensures Corresponds(Items(Full(a, cs), at, lineno, f), Items(Bare(a, cs), at', lineno', f), a, cs, at, at')
      <==> Agree(a, cs, false, false)
    decreases |cs|, |a|, 0
  {
    hide Full, Bare, Corresponds, Between, Joints, Agree, Items, IsFence, LineLen, EndsPiece, From;
    var t, e := Full(a, cs), Bare(a, cs);
    FullStep(a, cs);
    BetweenTok(a, cs, Items(t, at, lineno, f), at, n);
    DeadLine(t, at, lineno, f);
    var m := LineLen(t);
    var f' := f != IsFence(RestLine(t));
    ItemsFrom(t[m..], at + m, lineno + 1, f');
    DeadShort(a, cs, Items(t, at, lineno, f), at, n, m);
    SameRest(a, cs);
    SameFront(a, cs);
    assert RestLine(t) == RestLine(e);
    assert |RestLine(e)| == LineLen(e);
    DeadToo(t, e, at, lineno, at', lineno', f);
    SkipFull(a, cs, m);
    PieceTail(a, cs, m);
    BetweenAny(a, cs, Items(t, at, lineno, f), at, n, m);
    WalkLine(a[m..], cs, f', at + m, lineno + 1, at' + m, lineno' + 1, n);
    CorrespondsSkip(Items(t, at, lineno, f), Items(e, at', lineno', f), a, cs, at, at', m);
    AgreeLine(a, cs, false);
  }

  /** A line without tokens ends before the token that ends the piece. */
  lemma {:induction false} DeadShort(a: string, cs: seq<Chunk>, items: seq<Item>, at: nat, n: nat, m: nat)
    requires Between(a, cs, items, at, n) && (cs != [] ==> n > 0) && From(items, at + m)
    ensures cs != [] ==> m < |a|
  {
  }

  lemma {:induction false} BetweenAny(a: string, cs: seq<Chunk>, items: seq<Item>, at: nat, n: nat, m: nat)
    requires Between(a, cs, items, at, n) && (cs != [] ==> n > 0) && m <= |a|
    ensures Between(a[m..], cs, items, at + m, n)
  {
    hide NoBreak;
  }

  lemma {:induction false} SkipFull(a: string, cs: seq<Chunk>, m: nat)
    requires m <= |a|
    ensures m <= |Full(a, cs)| && m <= |Bare(a, cs)|
    ensures Full(a, cs)[m..] == Full(a[m..], cs) && Bare(a, cs)[m..] == Bare(a[m..], cs)
  {
    if cs != [] {
      var v, w := cs[0].value + Full(cs[0].post, cs[1..]), Bare(cs[0].post, cs[1..]);
      assert (a + v)[m..] == a[m..] + v && (a + w)[m..] == a[m..] + w;
    }
  }

  lemma {:induction false} PieceTail(a: string, cs: seq<Chunk>, m: nat)
    requires EndsPiece(a, cs) && m <= |a|
    ensures EndsPiece(a[m..], cs)
  {
  }
}
