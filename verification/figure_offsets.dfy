/** The offset map between a masked text and the same text without its floor pluses. */
module FigureOffsets {
  import opened Decimal
  import opened FigureMarkers

  /** A plus sign after a digit and before a space or a hyphen: the tail of a typed floor. */
  predicate IsFloorPlus(s: string, i: nat) {
    && 0 < i && i + 1 < |s| && s[i] == '+'
    && IsDigit(s[i - 1]) && (IsSpace(s[i + 1]) || s[i + 1] == '-')
  }

  /** `s[a..b]` without the floor pluses. */
  function Kept(s: string, a: nat, b: nat): string
    requires a <= b <= |s|
  {
    if a == b then ""
    else Kept(s, a, b - 1) + (if IsFloorPlus(s, b - 1) then "" else [s[b - 1]])
  }

  function Scanned(s: string): string {
    Kept(s, 0, |s|)
  }

  /** How many characters survive before `q`. */
  function KeptBefore(s: string, q: nat): nat
    requires q <= |s|
  {
    |Kept(s, 0, q)|
  }

  /** `removed` lists the floor pluses, left to right. */
  ghost predicate Lists(s: string, removed: seq<nat>) {
    && (forall i :: 0 <= i < |removed| ==> removed[i] < |s| && IsFloorPlus(s, removed[i]))
    && (forall i, j :: 0 <= i < j < |removed| ==> removed[i] < removed[j])
    && forall p :: 0 <= p < |s| && IsFloorPlus(s, p) ==> p in removed
  }

  method FindFloorPluses(s: string) returns (removed: seq<nat>)
    ensures Lists(s, removed)
  {
    removed := [];
    hide IsFloorPlus;
    for i := 0 to |s|
      invariant forall k :: 0 <= k < |removed| ==> removed[k] < i && IsFloorPlus(s, removed[k])
      invariant forall j, k :: 0 <= j < k < |removed| ==> removed[j] < removed[k]
      invariant forall p :: 0 <= p < i && IsFloorPlus(s, p) ==> p in removed
    {
      if IsFloorPlus(s, i) {
        removed := removed + [i];
      }
    }
  }

  /** How many listed positions lie before `q`. */
  function Below(removed: seq<nat>, q: nat): nat {
    if removed == [] then 0 else Below(removed[..|removed| - 1], q) + (if removed[|removed| - 1] < q then 1 else 0)
  }

  lemma {:induction false} BelowSplit(removed: seq<nat>, q: nat, n: nat)
    requires n <= |removed|
    requires forall i :: 0 <= i < n ==> removed[i] < q
    requires forall i :: n <= i < |removed| ==> removed[i] >= q
    ensures Below(removed, q) == n
  {
    if removed != [] {
      BelowSplit(removed[..|removed| - 1], q, if n == |removed| then n - 1 else n);
    }
  }

  /** Counting the listed positions counts the deleted characters. */
  lemma {:induction false} KeptAndBelow(s: string, removed: seq<nat>, q: nat)
    requires Lists(s, removed) && q <= |s|
    ensures KeptBefore(s, q) + Below(removed, q) == q
  {
    hide IsFloorPlus;
    if q == 0 {
      BelowSplit(removed, 0, 0);
    } else {
      KeptAndBelow(s, removed, q - 1);
      BelowStep(s, removed, q - 1);
    }
  }

  lemma {:induction false} CountBelow(removed: seq<nat>, q: nat) returns (n: nat)
    requires forall i, j :: 0 <= i < j < |removed| ==> removed[i] < removed[j]
    ensures n <= |removed| && Below(removed, q) == n
    ensures forall i :: 0 <= i < n ==> removed[i] < q
    ensures forall i :: n <= i < |removed| ==> removed[i] >= q
  {
    n := 0;
    while n < |removed| && removed[n] < q
      invariant n <= |removed| && forall i :: 0 <= i < n ==> removed[i] < q
    {
      n := n + 1;
    }
    BelowSplit(removed, q, n);
  }

  lemma {:induction false} BelowStep(s: string, removed: seq<nat>, q: nat)
    requires Lists(s, removed) && q < |s|
    ensures Below(removed, q + 1) == Below(removed, q) + (if IsFloorPlus(s, q) then 1 else 0)
  {
    hide IsFloorPlus, Below;
    var n := CountBelow(removed, q);
    if IsFloorPlus(s, q) {
      var i :| 0 <= i < |removed| && removed[i] == q;
      assert n <= i && q <= removed[n] <= removed[i];
      BelowSplit(removed, q + 1, n + 1);
    } else {
      assert n < |removed| ==> removed[n] != q;
      BelowSplit(removed, q + 1, n);
    }
  }

  lemma {:induction false} KeptMonotone(s: string, p: nat, q: nat)
    requires p <= q <= |s|
    ensures KeptBefore(s, p) <= KeptBefore(s, q)
    ensures Kept(s, 0, q) == Kept(s, 0, p) + Kept(s, p, q)
  {
    hide IsFloorPlus;
    if p < q {
      KeptMonotone(s, p, q - 1);
    }
  }

  lemma {:induction false} KeptOrder(s: string, p: nat, q: nat)
    requires p <= |s| && q <= |s|
    ensures p <= q ==> KeptBefore(s, p) <= KeptBefore(s, q)
  {
    if p <= q { KeptMonotone(s, p, q); }
  }

  /** The least position whose prefix keeps exactly `offset` characters. */
  ghost predicate Least(s: string, offset: nat, q: nat) {
    && q <= |s| && KeptBefore(s, q) == offset
    && forall p :: 0 <= p < q ==> KeptBefore(s, p) != offset
  }

  /** `original`: the early-return loop over the removed positions. */
  method Original(s: string, removed: seq<nat>, offset: nat) returns (q: nat)
    requires Lists(s, removed) && offset <= |Scanned(s)|
    ensures Least(s, offset, q)
  {
    hide IsFloorPlus, Kept, Below;
    for index := 0 to |removed|
      invariant forall i :: 0 <= i < index ==> removed[i] - i < offset
    {
      if removed[index] - index >= offset {
        q := offset + index;
        FoundAt(s, removed, offset, index);
        return;
      }
    }
    q := offset + |removed|;
    FoundAt(s, removed, offset, |removed|);
  }

  lemma {:induction false} FoundAt(s: string, removed: seq<nat>, offset: nat, index: nat)
    requires Lists(s, removed) && offset <= |Scanned(s)| && index <= |removed|
    requires forall i :: 0 <= i < index ==> removed[i] - i < offset
    requires index < |removed| ==> removed[index] - index >= offset
    ensures Least(s, offset, offset + index)
  {
    hide IsFloorPlus, Kept, Below;
    var q := offset + index;
    KeptAndBelow(s, removed, |s|);
    BelowSplit(removed, |s|, |removed|);
    assert q <= |s|;
    forall i | 0 <= i < index ensures removed[i] < q {
      RemovedBound(s, removed, offset, index, i);
    }
    forall i | index <= i < |removed| ensures removed[i] >= q {
      assert removed[index] <= removed[i];
    }
    BelowSplit(removed, q, index);
    KeptAndBelow(s, removed, q);
    if q > 0 {
      LastKept(s, removed, offset, index);
      forall p | 0 <= p < q ensures KeptBefore(s, p) != offset {
        KeptMonotone(s, p, q - 1);
      }
    }
  }

  lemma {:induction false} RemovedBound(s: string, removed: seq<nat>, offset: nat, index: nat, i: nat)
    requires Lists(s, removed) && i < index <= |removed|
    requires forall k :: 0 <= k < index ==> removed[k] - k < offset
    ensures removed[i] + 1 < offset + index
  {
    assert removed[i] - i < offset;
    if i == index - 1 {
      assert removed[i] < offset + index - 1;
    }
  }

  lemma {:induction false} LastKept(s: string, removed: seq<nat>, offset: nat, index: nat)
    requires Lists(s, removed) && index <= |removed| && 0 < offset + index <= |s|
    requires forall k :: 0 <= k < index ==> removed[k] - k < offset
    requires index < |removed| ==> removed[index] - index >= offset
    requires KeptBefore(s, offset + index) == offset
    ensures KeptBefore(s, offset + index - 1) < offset
  {
    var q := offset + index;
    forall i | 0 <= i < |removed| ensures removed[i] != q - 1 {
      if i < index {
        RemovedBound(s, removed, offset, index, i);
      } else {
        assert removed[index] <= removed[i];
      }
    }
    assert !IsFloorPlus(s, q - 1);
  }

  /** Mapping both ends of a scanned span back and deleting the pluses gives the span. */
  lemma {:induction false} SpanMapsBack(s: string, from: nat, to: nat, a: nat, b: nat)
    requires from <= to <= |Scanned(s)| && Least(s, from, a) && Least(s, to, b)
    ensures a <= b && Kept(s, a, b) == Scanned(s)[from..to]
  {
    hide IsFloorPlus, Kept;
    KeptOrder(s, b, a);
    KeptMonotone(s, a, b);
    KeptMonotone(s, b, |s|);
    var x, y, z := Kept(s, 0, a), Kept(s, a, b), Kept(s, b, |s|);
    assert Scanned(s) == x + y + z;
    assert |x| == from && |x + y| == to;
  }

  /** There is exactly one least position, for every offset of the scanned text. */
  lemma {:induction false} LeastUnique(s: string, offset: nat, p: nat, q: nat)
    requires Least(s, offset, p) && Least(s, offset, q)
    ensures p == q
  {
    hide Kept;
  }
}
