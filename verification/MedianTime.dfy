/** Median time past: the middle of the last eleven block times (tree.rs, BIP 113). */
module MedianTime {
  import opened Bounded
  import opened Chain

  const WINDOW: nat := 11

  /** The times of `i` and its nearest ancestors, newest first, at most `n` of them. */
  function Times(ns: seq<Node>, i: nat, n: nat): (times: seq<u32>)
    requires Linked(ns) && i < |ns|
    ensures |times| == Min(n, ns[i].height + 1)
    decreases i
  {
    assert NodeOk(ns, i);
    if n == 0 then []
    else if Parent(ns, i).None? then [ns[i].header.time]
    else [ns[i].header.time] + Times(ns, Parent(ns, i).value, n - 1)
  }

  lemma {:induction false} TimesAt(ns: seq<Node>, i: nat, n: nat, k: nat)
    requires Linked(ns) && i < |ns| && k < |Times(ns, i, n)|
    ensures Times(ns, i, n)[k] == ns[AncestorAt(ns, i, ns[i].height - k)].header.time
    decreases k
  {
    assert NodeOk(ns, i);
    if k > 0 {
      TimesAt(ns, Parent(ns, i).value, n - 1, k - 1);
    }
  }

  // ---- Sorting and ranks ----

  function Insert(x: u32, s: seq<u32>): (r: seq<u32>)
    ensures |r| == |s| + 1
  {
    if s == [] || x <= s[0] then [x] + s else [s[0]] + Insert(x, s[1..])
  }

  function Sort(s: seq<u32>): (r: seq<u32>)
    ensures |r| == |s|
  {
    if s == [] then [] else Insert(s[0], Sort(s[1..]))
  }

  predicate Ordered(s: seq<u32>) {
    forall i, j :: 0 <= i < j < |s| ==> s[i] <= s[j]
  }

  function CountBelow(s: seq<u32>, x: u32): (c: nat)
    ensures c <= |s|
  {
    if s == [] then 0 else (if s[0] < x then 1 else 0) + CountBelow(s[1..], x)
  }

  function CountAtMost(s: seq<u32>, x: u32): (c: nat)
    ensures c <= |s|
  {
    if s == [] then 0 else (if s[0] <= x then 1 else 0) + CountAtMost(s[1..], x)
  }

  lemma {:induction false} InsertMembers(x: u32, s: seq<u32>)
    ensures forall y :: y in Insert(x, s) <==> y == x || y in s
  {
    if s != [] && x > s[0] {
      InsertMembers(x, s[1..]);
      assert s == [s[0]] + s[1..];
    }
  }

  lemma {:induction false} InsertOrdered(x: u32, s: seq<u32>)
    requires Ordered(s)
    ensures Ordered(Insert(x, s))
  {
    if s != [] && x > s[0] {
      InsertOrdered(x, s[1..]);
      InsertMembers(x, s[1..]);
      var rest := Insert(x, s[1..]);
      assert forall k :: 0 <= k < |rest| ==> rest[k] in rest;
    }
  }

  lemma {:induction false} InsertCounts(x: u32, s: seq<u32>, y: u32)
    ensures CountBelow(Insert(x, s), y) == (if x < y then 1 else 0) + CountBelow(s, y)
    ensures CountAtMost(Insert(x, s), y) == (if x <= y then 1 else 0) + CountAtMost(s, y)
  {
    if s != [] && x > s[0] {
      InsertCounts(x, s[1..], y);
      assert Insert(x, s)[1..] == Insert(x, s[1..]);
    } else {
      assert Insert(x, s)[1..] == s;
    }
  }

  /** Sorting puts a sequence in order without changing how many elements lie below a value. */
  lemma {:induction false} SortRanks(s: seq<u32>, y: u32)
    ensures Ordered(Sort(s))
    ensures y in Sort(s) <==> y in s
    ensures CountBelow(Sort(s), y) == CountBelow(s, y)
    ensures CountAtMost(Sort(s), y) == CountAtMost(s, y)
  {
    if s != [] {
      SortRanks(s[1..], y);
      InsertOrdered(s[0], Sort(s[1..]));
      InsertMembers(s[0], Sort(s[1..]));
      InsertCounts(s[0], Sort(s[1..]), y);
      assert s == [s[0]] + s[1..];
    }
  }

  lemma {:induction false} OrderedRank(s: seq<u32>, k: nat)
    requires Ordered(s) && k < |s|
    ensures CountBelow(s, s[k]) <= k < CountAtMost(s, s[k])
  {
    if k == 0 {
      NoneBelow(s, s[0]);
    } else {
      OrderedRank(s[1..], k - 1);
    }
  }

  lemma {:induction false} NoneBelow(s: seq<u32>, x: u32)
    requires forall i :: 0 <= i < |s| ==> x <= s[i]
    ensures CountBelow(s, x) == 0
  {
    if s != [] { NoneBelow(s[1..], x); }
  }

  lemma {:induction false} AtMostIsBelow(s: seq<u32>, x: u32, y: u32)
    requires x < y
    ensures CountAtMost(s, x) <= CountBelow(s, y)
  {
    if s != [] { AtMostIsBelow(s[1..], x, y); }
  }

  // ---- The median ----

  function Median(s: seq<u32>): u32
    requires s != []
  {
    Sort(s)[|s| / 2]
  }

  /** `m` is the upper middle of `s`: at most half lie below it, more than half at most it. */
  ghost predicate IsMedian(s: seq<u32>, m: u32) {
    m in s && CountBelow(s, m) <= |s| / 2 < CountAtMost(s, m)
  }

  lemma MedianByRank(s: seq<u32>)
    requires s != []
    ensures IsMedian(s, Median(s))
  {
    SortRanks(s, Median(s));
    OrderedRank(Sort(s), |s| / 2);
    assert Median(s) in Sort(s);
  }

  lemma MedianIsUnique(s: seq<u32>, m: u32)
    requires s != [] && IsMedian(s, m)
    ensures m == Median(s)
  {
    MedianByRank(s);
    if m < Median(s) {
      AtMostIsBelow(s, m, Median(s));
    } else if Median(s) < m {
      AtMostIsBelow(s, Median(s), m);
    }
  }

  /** The median time past of a node. */
  function MedianTimePast(ns: seq<Node>, i: nat): u32
    requires Linked(ns) && i < |ns|
  {
    Median(Times(ns, i, WINDOW))
  }

  // ---- Median time past never decreases ----

  lemma {:induction false} TimesPrefix(ns: seq<Node>, i: nat, n: nat)
    requires Linked(ns) && i < |ns|
    ensures Times(ns, i, n) == Times(ns, i, n + 1)[..|Times(ns, i, n)|]
    decreases n
  {
    assert NodeOk(ns, i);
    if n > 0 && Parent(ns, i).Some? {
      TimesPrefix(ns, Parent(ns, i).value, n - 1);
    }
  }

  lemma {:induction false} CountBelowPrefix(s: seq<u32>, k: nat, x: u32)
    requires k <= |s|
    ensures CountBelow(s[..k], x) <= CountBelow(s, x)
  {
    if k > 0 {
      assert s[..k][1..] == s[1..][..k - 1];
      CountBelowPrefix(s[1..], k - 1, x);
    }
  }

  /** A newer, larger time entering the window never lowers the median. */
  lemma MedianAfterLarger(window: seq<u32>, k: nat, time: u32)
    requires window != [] && time > Median(window)
    requires k == |window| || (k == |window| - 1 && |window| % 2 == 1)
    ensures Median([time] + window[..k]) >= Median(window)
  {
    var next := [time] + window[..k];
    var m, x := Median(window), Median(next);
    MedianByRank(window);
    MedianByRank(next);
    assert next[1..] == window[..k];
    CountBelowPrefix(window, k, m);
    assert CountBelow(next, m) <= |next| / 2;
    if x < m {
      AtMostIsBelow(next, x, m);
    }
  }

  /** Every node's time is above the median time past of its parent. */
  ghost predicate TimesAboveMedian(ns: seq<Node>)
    requires Linked(ns)
  {
    forall i: nat :: i < |ns| ==> TimeAboveMedian(ns, i)
  }

  predicate TimeAboveMedian(ns: seq<Node>, i: nat)
    requires Linked(ns) && i < |ns|
  {
    Parent(ns, i).Some? ==> ns[i].header.time > MedianTimePast(ns, Parent(ns, i).value)
  }

  lemma MedianOfChild(ns: seq<Node>, i: nat)
    requires Linked(ns) && i < |ns| && Parent(ns, i).Some?
    requires TimeAboveMedian(ns, i)
    ensures MedianTimePast(ns, i) >= MedianTimePast(ns, Parent(ns, i).value)
  {
    var p := Parent(ns, i).value;
    var window := Times(ns, p, WINDOW);
    var k := |Times(ns, p, WINDOW - 1)|;
    TimesPrefix(ns, p, WINDOW - 1);
    assert Times(ns, i, WINDOW) == [ns[i].header.time] + window[..k];
    MedianAfterLarger(window, k, ns[i].header.time);
  }

  /** Along every chain of such headers the median time past never decreases. */
  lemma {:induction false} MedianNeverDecreases(ns: seq<Node>, a: nat, i: nat)
    requires Linked(ns) && TimesAboveMedian(ns) && i < |ns| && IsAncestor(ns, a, i)
    ensures MedianTimePast(ns, a) <= MedianTimePast(ns, i)
  {
    AncestorOfParent(ns, a, i);
    if a != i {
      MedianNeverDecreases(ns, a, Parent(ns, i).value);
      assert TimeAboveMedian(ns, i);
      MedianOfChild(ns, i);
    }
  }

  lemma MedianFrame(ns: seq<Node>, ns': seq<Node>, i: nat)
    requires Linked(ns) && Linked(ns') && SameLinks(ns, ns') && i < |ns|
    ensures MedianTimePast(ns', i) == MedianTimePast(ns, i)
  {
    TimesFrame(ns, ns', i, WINDOW);
  }

  lemma {:induction false} TimesFrame(ns: seq<Node>, ns': seq<Node>, i: nat, n: nat)
    requires Linked(ns) && Linked(ns') && SameLinks(ns, ns') && i < |ns|
    ensures Times(ns', i, n) == Times(ns, i, n)
    decreases n
  {
    assert SameAt(ns, ns', i);
    if n > 0 && Parent(ns, i).Some? {
      TimesFrame(ns, ns', Parent(ns, i).value, n - 1);
    }
  }
}
