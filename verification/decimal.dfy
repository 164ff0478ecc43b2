/** Decimal notation: digits, fixed width, thousands separators. */
module Decimal {
  predicate IsDigit(c: char) { '0' <= c <= '9' }

  predicate AllDigits(s: string) {
    forall k :: 0 <= k < |s| ==> IsDigit(s[k])
  }

  function DigitValue(c: char): nat
    requires IsDigit(c)
  {
    c as int - '0' as int
  }

  function DigitChar(d: nat): (c: char)
    requires d < 10
    ensures IsDigit(c) && DigitValue(c) == d
  {
    ('0' as int + d) as char
  }

  function ParseNat(s: string): nat
    requires AllDigits(s)
  {
    if s == "" then 0 else ParseNat(s[..|s| - 1]) * 10 + DigitValue(s[|s| - 1])
  }

  /** Plain decimal notation. */
  function Digits(n: nat): (s: string)
    ensures s != "" && AllDigits(s)
  {
    if n < 10 then [DigitChar(n)] else Digits(n / 10) + [DigitChar(n % 10)]
  }

  lemma {:induction false} DigitsParse(n: nat)
    ensures ParseNat(Digits(n)) == n
  {
    if n < 10 {
      assert [DigitChar(n)][..0] == "";
    } else {
      DigitsParse(n / 10);
      assert Digits(n)[..|Digits(n)| - 1] == Digits(n / 10);
    }
  }

  /** The last `w` digits of `n`, zero-filled. */
  function Fixed(n: nat, w: nat): (s: string)
    ensures |s| == w && AllDigits(s)
  {
    if w == 0 then "" else Fixed(n / 10, w - 1) + [DigitChar(n % 10)]
  }

  function Pow10(w: nat): (p: nat)
    ensures p > 0
  {
    if w == 0 then 1 else 10 * Pow10(w - 1)
  }

  lemma {:induction false} FixedParse(n: nat, w: nat)
    requires n < Pow10(w)
    ensures ParseNat(Fixed(n, w)) == n
  {
    if w > 0 {
      FixedParse(n / 10, w - 1);
      assert Fixed(n, w)[..w - 1] == Fixed(n / 10, w - 1);
    }
  }

  /** Zero-filled to at least `w` digits, longer when the number is. */
  function ZeroPad(n: nat, w: nat): string {
    if |Digits(n)| < w then Fixed(n, w) else Digits(n)
  }

  lemma {:induction false} DigitsLength(n: nat, w: nat)
    requires w > 0
    ensures |Digits(n)| <= w <==> n < Pow10(w)
  {
    if n >= 10 && w > 1 {
      DigitsLength(n / 10, w - 1);
    } else if n >= 10 {
      assert Pow10(1) == 10 * Pow10(0);
    } else {
      assert Pow10(w) == 10 * Pow10(w - 1);
    }
  }

  lemma {:induction false} FixedIsDigits(n: nat, w: nat)
    requires |Digits(n)| == w
    ensures Digits(n) == Fixed(n, w)
  {
    if n >= 10 {
      FixedIsDigits(n / 10, w - 1);
    } else {
      assert Fixed(n / 10, 0) == "";
    }
  }

  /** Thousands separated by commas. */
  function Grouped(n: nat): string {
    if n < 1000 then Digits(n) else Grouped(n / 1000) + "," + Fixed(n % 1000, 3)
  }

  function DropCommas(s: string): string {
    if s == "" then ""
    else DropCommas(s[..|s| - 1]) + (if s[|s| - 1] == ',' then "" else [s[|s| - 1]])
  }

  lemma {:induction false} DropCommasConcat(a: string, b: string)
    ensures DropCommas(a + b) == DropCommas(a) + DropCommas(b)
  {
    if b == "" {
      assert a + b == a;
    } else {
      DropCommasConcat(a, b[..|b| - 1]);
      assert (a + b)[..|a + b| - 1] == a + b[..|b| - 1];
    }
  }

  lemma {:induction false} DropCommasDigits(s: string)
    requires AllDigits(s)
    ensures DropCommas(s) == s
  {
    if s != "" {
      DropCommasDigits(s[..|s| - 1]);
      assert s == s[..|s| - 1] + [s[|s| - 1]];
    }
  }

  lemma {:induction false} ParseConcat(a: string, b: string)
    requires AllDigits(a) && AllDigits(b)
    ensures AllDigits(a + b) && ParseNat(a + b) == ParseNat(a) * Pow10(|b|) + ParseNat(b)
  {
    if b == "" {
      assert a + b == a;
    } else {
      var b' := b[..|b| - 1];
      ParseConcat(a, b');
      assert (a + b)[..|a + b| - 1] == a + b';
      assert ParseNat(a) * Pow10(|b|) == ParseNat(a) * Pow10(|b'|) * 10;
    }
  }

  /** Grouping loses nothing: dropping the commas reads the number back. */
  lemma {:induction false} GroupedParse(n: nat)
    ensures AllDigits(DropCommas(Grouped(n))) && ParseNat(DropCommas(Grouped(n))) == n
  {
    if n < 1000 {
      DropCommasDigits(Digits(n));
      DigitsParse(n);
    } else {
      var hi, lo := Grouped(n / 1000), Fixed(n % 1000, 3);
      GroupedParse(n / 1000);
      DropCommasConcat(hi + ",", lo);
      DropCommasConcat(hi, ",");
      assert ","[..0] == "";
      assert DropCommas(",") == "";
      DropCommasDigits(lo);
      assert Pow10(3) == 1000 by { assert Pow10(0) == 1; assert Pow10(1) == 10; assert Pow10(2) == 100; }
      FixedParse(n % 1000, 3);
      assert DropCommas(Grouped(n)) == DropCommas(hi) + lo;
      ParseConcat(DropCommas(hi), lo);
    }
  }

  /** No leading zero. */
  lemma {:induction false} DigitsLead(n: nat)
    ensures n > 0 ==> Digits(n)[0] != '0'
    ensures n == 0 ==> Digits(n) == "0"
  {
    if n >= 10 {
      DigitsLead(n / 10);
    }
  }

  /** The commas stand before every third digit from the right, and nowhere else; a digit leads. */
  lemma {:induction false} GroupedCommas(n: nat)
    ensures Grouped(n) != "" && (n > 0 ==> Grouped(n)[0] != '0') && Grouped(n)[0] != ','
    ensures forall i :: 0 <= i < |Grouped(n)| ==> (Grouped(n)[i] == ',' <==> (|Grouped(n)| - i) % 4 == 0)
  {
    hide Digits, Fixed;
    if n < 1000 {
      DigitsLead(n);
      DigitsLength(n, 3);
      assert Pow10(3) == 1000 by { assert Pow10(0) == 1; assert Pow10(1) == 10; assert Pow10(2) == 100; }
      assert IsDigit(Digits(n)[0]);
    } else {
      var hi, lo := Grouped(n / 1000), Fixed(n % 1000, 3);
      GroupedCommas(n / 1000);
      GroupStep(hi, lo);
    }
  }

  lemma {:induction false} GroupStep(hi: string, lo: string)
    requires hi != "" && |lo| == 3 && AllDigits(lo)
    requires forall i :: 0 <= i < |hi| ==> (hi[i] == ',' <==> (|hi| - i) % 4 == 0)
    ensures var s := hi + "," + lo;
      s[0] == hi[0] && forall i :: 0 <= i < |s| ==> (s[i] == ',' <==> (|s| - i) % 4 == 0)
  {
    var s := hi + "," + lo;
    forall i | 0 <= i < |s| ensures s[i] == ',' <==> (|s| - i) % 4 == 0 {
      if i < |hi| {
        assert s[i] == hi[i] && |s| - i == (|hi| - i) + 4;
      } else if i > |hi| {
        assert s[i] == lo[i - |hi| - 1];
      }
    }
  }

  lemma {:induction false} GroupedChars(n: nat)
    ensures forall k :: 0 <= k < |Grouped(n)| ==> IsDigit(Grouped(n)[k]) || Grouped(n)[k] == ','
  {
    if n >= 1000 {
      GroupedChars(n / 1000);
    }
  }
}
