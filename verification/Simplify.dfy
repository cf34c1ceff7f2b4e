/** `simplify` of `assets/generate_world_basemap.py`: Douglas-Peucker with an explicit stack, proved
    equal to the recursive definition, whatever distance function is used. */
module Simplify {

  type Point = (real, real)
  type Distance = (Point, Point, Point) -> real

  ghost predicate NonNegative(d: Distance) {
    forall p, a, b :: d(p, a, b) >= 0.0
  }

  // ---------- the recursive definition ----------

  /** The first index in `start + 1 .. i` whose distance from the line `start`-`end` is largest. */
  function FarthestBelow(d: Distance, pts: seq<Point>, start: nat, end: nat, i: nat): (m: nat)
    requires start + 1 < i <= end < |pts|
    ensures start < m < i
    ensures forall j :: start < j < i ==> d(pts[j], pts[start], pts[end]) <= d(pts[m], pts[start], pts[end])
    ensures forall j :: start < j < m ==> d(pts[j], pts[start], pts[end]) < d(pts[m], pts[start], pts[end])
  {
    if i == start + 2 then start + 1
    else
      var m := FarthestBelow(d, pts, start, end, i - 1);
      if d(pts[i - 1], pts[start], pts[end]) > d(pts[m], pts[start], pts[end]) then i - 1 else m
  }

  function Farthest(d: Distance, pts: seq<Point>, start: nat, end: nat): nat
    requires start + 1 < end < |pts|
  {
    FarthestBelow(d, pts, start, end, end)
  }

  predicate Splits(d: Distance, tolerance: real, pts: seq<Point>, start: nat, end: nat)
    requires start < end < |pts|
  {
    start + 1 < end && d(pts[Farthest(d, pts, start, end)], pts[start], pts[end]) > tolerance
  }

  ghost predicate Increasing(ks: seq<nat>) {
    forall i, j :: 0 <= i < j < |ks| ==> ks[i] < ks[j]
  }

  ghost predicate Within(ks: seq<nat>, n: nat) {
    forall j :: 0 <= j < |ks| ==> ks[j] < n
  }

  /** The indices Douglas-Peucker keeps strictly between `start` and `end`, in order. */
  function Kept(d: Distance, tolerance: real, pts: seq<Point>, start: nat, end: nat): (ks: seq<nat>)
    requires start < end < |pts|
    ensures forall j :: 0 <= j < |ks| ==> start < ks[j] < end
    ensures Increasing(ks)
    decreases end - start
  {
    if Splits(d, tolerance, pts, start, end) then
      var m := Farthest(d, pts, start, end);
      Kept(d, tolerance, pts, start, m) + [m] + Kept(d, tolerance, pts, m, end)
    else []
  }

  /** The kept indices with both ends. */
  function Chain(d: Distance, tolerance: real, pts: seq<Point>, start: nat, end: nat): (ks: seq<nat>)
    requires start < end < |pts|
    ensures forall j :: 0 <= j < |ks| ==> start <= ks[j] <= end
    ensures |ks| >= 2 && Increasing(ks) && ks[0] == start && ks[|ks| - 1] == end
  {
    [start] + Kept(d, tolerance, pts, start, end) + [end]
  }

  function Select(pts: seq<Point>, ks: seq<nat>): (r: seq<Point>)
    requires Within(ks, |pts|)
    ensures |r| == |ks| && forall j :: 0 <= j < |ks| ==> r[j] == pts[ks[j]]
  {
    if ks == [] then [] else Select(pts, ks[..|ks| - 1]) + [pts[ks[|ks| - 1]]]
  }

  function Simplified(d: Distance, tolerance: real, pts: seq<Point>): seq<Point> {
    if |pts| < 3 then pts else Select(pts, Chain(d, tolerance, pts, 0, |pts| - 1))
  }

  // ---------- the worklist algorithm ----------

  function Elements(ks: seq<nat>): set<nat> {
    set k | k in ks
  }

  ghost predicate StackOk(stack: seq<(nat, nat)>, n: nat) {
    forall j :: 0 <= j < |stack| ==> stack[j].0 < stack[j].1 < n
  }

  /** The indices the stacked intervals will still add. */
  ghost function Pending(d: Distance, tolerance: real, pts: seq<Point>, stack: seq<(nat, nat)>): set<nat>
    requires StackOk(stack, |pts|)
  {
    if stack == [] then {}
    else
      var top := stack[|stack| - 1];
      Pending(d, tolerance, pts, stack[..|stack| - 1]) + Elements(Kept(d, tolerance, pts, top.0, top.1))
  }

  /** A split replaces an interval of length `a + b` by two of lengths `a` and `b`. */
  ghost function StackWork(stack: seq<(nat, nat)>): int {
    if stack == [] then 0
    else
      var top := stack[|stack| - 1];
      StackWork(stack[..|stack| - 1]) + 2 * (top.1 as int - top.0 as int) - 1
  }

  lemma {:induction false} StackWorkNonNegative(stack: seq<(nat, nat)>, n: nat)
    requires StackOk(stack, n)
    ensures StackWork(stack) >= |stack|
  {
    if stack != [] { StackWorkNonNegative(stack[..|stack| - 1], n); }
  }

  lemma Push(d: Distance, tolerance: real, pts: seq<Point>, stack: seq<(nat, nat)>, item: (nat, nat))
    requires StackOk(stack, |pts|) && item.0 < item.1 < |pts|
    ensures StackOk(stack + [item], |pts|)
    ensures StackWork(stack + [item]) == StackWork(stack) + 2 * (item.1 as int - item.0 as int) - 1
    ensures Pending(d, tolerance, pts, stack + [item])
         == Pending(d, tolerance, pts, stack) + Elements(Kept(d, tolerance, pts, item.0, item.1))
  {
    assert (stack + [item])[..|stack|] == stack;
  }

  /** Taking one interval from the stack and pushing its two halves. */
  lemma SplitTop(d: Distance, tolerance: real, pts: seq<Point>, rest: seq<(nat, nat)>, start: nat, end: nat)
    requires StackOk(rest, |pts|) && start < end < |pts| && Splits(d, tolerance, pts, start, end)
    ensures var m := Farthest(d, pts, start, end);
            var stack := rest + [(start, m)] + [(m, end)];
            && StackOk(stack, |pts|)
            && StackWork(stack) < StackWork(rest + [(start, end)])
            && Pending(d, tolerance, pts, rest + [(start, end)]) == Pending(d, tolerance, pts, stack) + {m}
  {
    var m := Farthest(d, pts, start, end);
    var left, right := Kept(d, tolerance, pts, start, m), Kept(d, tolerance, pts, m, end);
    Push(d, tolerance, pts, rest, (start, end));
    Push(d, tolerance, pts, rest, (start, m));
    Push(d, tolerance, pts, rest + [(start, m)], (m, end));
    assert Kept(d, tolerance, pts, start, end) == left + [m] + right;
    ElementsJoin(left, m, right);
  }

  /** Taking an interval that is not split. */
  lemma SkipTop(d: Distance, tolerance: real, pts: seq<Point>, rest: seq<(nat, nat)>, start: nat, end: nat)
    requires StackOk(rest, |pts|) && start < end < |pts| && !Splits(d, tolerance, pts, start, end)
    ensures StackWork(rest) < StackWork(rest + [(start, end)])
    ensures Pending(d, tolerance, pts, rest + [(start, end)]) == Pending(d, tolerance, pts, rest)
  {
    Push(d, tolerance, pts, rest, (start, end));
  }

  /** One turn of the loop: what is kept and what is pending stay the same together. */
  lemma PopTop(d: Distance, tolerance: real, pts: seq<Point>, whole: seq<(nat, nat)>, rest: seq<(nat, nat)>,
               start: nat, end: nat)
    requires StackOk(whole, |pts|) && whole == rest + [(start, end)]
    ensures StackOk(rest, |pts|) && start < end < |pts|
    ensures StackWork(whole) >= 0
    ensures !Splits(d, tolerance, pts, start, end) ==>
              && StackWork(rest) < StackWork(whole)
              && Pending(d, tolerance, pts, whole) == Pending(d, tolerance, pts, rest)
    ensures Splits(d, tolerance, pts, start, end) ==>
              var m := Farthest(d, pts, start, end);
              var stack := rest + [(start, m)] + [(m, end)];
              && StackOk(stack, |pts|)
              && StackWork(stack) < StackWork(whole)
              && Pending(d, tolerance, pts, whole) == Pending(d, tolerance, pts, stack) + {m}
  {
    assert rest == whole[..|whole| - 1] && whole[|whole| - 1] == (start, end);
    StackWorkNonNegative(whole, |pts|);
    if Splits(d, tolerance, pts, start, end) {
      SplitTop(d, tolerance, pts, rest, start, end);
    } else {
      SkipTop(d, tolerance, pts, rest, start, end);
    }
  }

  lemma ElementsJoin(left: seq<nat>, m: nat, right: seq<nat>)
    ensures Elements(left + [m] + right) == Elements(left) + {m} + Elements(right)
  {
  }

  /** The scan of one interval. */
  method FindFarthest(d: Distance, pts: seq<Point>, start: nat, end: nat) returns (distance: real, index: int)
    requires NonNegative(d)
    requires start + 1 < end < |pts|
    ensures index == Farthest(d, pts, start, end)
    ensures distance == d(pts[index], pts[start], pts[end])
  {
    distance, index := -1.0, -1;
    for i := start + 1 to end
      invariant i == start + 1 ==> distance == -1.0
      invariant i > start + 1 ==> index == FarthestBelow(d, pts, start, end, i)
      invariant i > start + 1 ==> distance == d(pts[index], pts[start], pts[end])
    {
      var dist := d(pts[i], pts[start], pts[end]);
      assert dist >= 0.0;
      if dist > distance {
        distance := dist;
        index := i;
      }
    }
  }

  /** The worklist loop: it marks exactly what was pending. */
  method Drain(d: Distance, tolerance: real, pts: seq<Point>, keep: array<bool>, initial: seq<(nat, nat)>)
    requires NonNegative(d)
    requires keep.Length == |pts| && StackOk(initial, |pts|)
    modifies keep
    ensures forall i :: 0 <= i < |pts| ==>
              (keep[i] <==> old(keep[i]) || i in Pending(d, tolerance, pts, initial))
  {
    var stack: seq<(nat, nat)> := initial;
    while stack != []
      invariant StackOk(stack, |pts|)
      invariant forall i :: 0 <= i < |pts| ==>
                  (keep[i] || i in Pending(d, tolerance, pts, stack) <==>
                   old(keep[i]) || i in Pending(d, tolerance, pts, initial))
      decreases StackWork(stack)
    {
      var (start, end) := stack[|stack| - 1];
      ghost var whole: seq<(nat, nat)> := stack;
      stack := stack[..|stack| - 1];
      PopTop(d, tolerance, pts, whole, stack, start, end);
      if end <= start + 1 {
        continue;
      }
      var distance: real, index: nat := FindFarthest(d, pts, start, end);
      if distance > tolerance {
        keep[index] := true;
        stack := stack + [(start, index)];
        stack := stack + [(index, end)];
      }
    }
  }

  /** The marks left are the recursive definition's indices. */
  method Mark(d: Distance, tolerance: real, pts: seq<Point>) returns (keep: array<bool>)
    requires NonNegative(d)
    requires |pts| >= 3
    ensures fresh(keep) && keep.Length == |pts|
    ensures forall i :: 0 <= i < |pts| ==> (keep[i] <==> i in Chain(d, tolerance, pts, 0, |pts| - 1))
  {
    var n := |pts|;
    keep := new bool[n](_ => false);
    keep[0], keep[n - 1] := true, true;
    var stack: seq<(nat, nat)> := [(0, n - 1)];
    Drain(d, tolerance, pts, keep, stack);
    Push(d, tolerance, pts, [], (0, n - 1));
    assert [] + [(0, n - 1)] == stack;
  }

  lemma ChainSplits(d: Distance, tolerance: real, pts: seq<Point>, start: nat, end: nat)
    requires start < end < |pts| && Splits(d, tolerance, pts, start, end)
    ensures var m := Farthest(d, pts, start, end);
            Chain(d, tolerance, pts, start, end) ==
            Chain(d, tolerance, pts, start, m) + Chain(d, tolerance, pts, m, end)[1..]
  {
    var m := Farthest(d, pts, start, end);
    JoinChains(start, Kept(d, tolerance, pts, start, m), m, Kept(d, tolerance, pts, m, end), end);
  }

  lemma JoinChains(start: nat, left: seq<nat>, m: nat, right: seq<nat>, end: nat)
    ensures [start] + (left + [m] + right) + [end] == ([start] + left + [m]) + ([m] + right + [end])[1..]
  {
    assert ([m] + right + [end])[1..] == right + [end];
  }

  /** Scanning `0, 1, 2, ...` meets the elements of an increasing list in order. */
  lemma NextKept(ks: seq<nat>, i: nat, done: nat)
    requires Increasing(ks) && done <= |ks|
    requires forall j :: 0 <= j < done ==> ks[j] < i
    requires done < |ks| ==> ks[done] >= i
    ensures i in ks <==> done < |ks| && ks[done] == i
    ensures done + 1 < |ks| ==> ks[done] < ks[done + 1]
  {
  }

  /** `[point for point, keep_point in zip(points, keep) if keep_point]`. */
  method Collect(pts: seq<Point>, keep: array<bool>, ghost ks: seq<nat>) returns (result: seq<Point>)
    requires keep.Length == |pts| && Within(ks, |pts|) && Increasing(ks)
    requires forall i :: 0 <= i < |pts| ==> (keep[i] <==> i in ks)
    ensures result == Select(pts, ks)
  {
    result := [];
    for i := 0 to |pts|
      invariant |result| <= |ks|
      invariant forall j :: 0 <= j < |result| ==> ks[j] < i
      invariant |result| < |ks| ==> ks[|result|] >= i
      invariant forall j :: 0 <= j < |result| ==> result[j] == pts[ks[j]]
    {
      NextKept(ks, i, |result|);
      if keep[i] {
        result := result + [pts[i]];
      }
    }
  }

  method Simplify(d: Distance, tolerance: real, pts: seq<Point>) returns (result: seq<Point>)
    requires NonNegative(d)
    ensures result == Simplified(d, tolerance, pts)
  {
    if |pts| < 3 {
      return pts;
    }
    var keep := Mark(d, tolerance, pts);
    result := Collect(pts, keep, Chain(d, tolerance, pts, 0, |pts| - 1));
  }

  // ---------- what the result guarantees ----------

  /** Between two consecutive indices of `ks` no point is farther than the tolerance from their line. */
  ghost predicate GapsWithin(d: Distance, tolerance: real, pts: seq<Point>, ks: seq<nat>)
    requires Within(ks, |pts|)
  {
    forall j, i :: 0 <= j < |ks| - 1 && ks[j] < i < ks[j + 1] ==>
      d(pts[i], pts[ks[j]], pts[ks[j + 1]]) <= tolerance
  }

  lemma JoinGaps(d: Distance, tolerance: real, pts: seq<Point>, a: seq<nat>, b: seq<nat>)
    requires Within(a, |pts|) && Within(b, |pts|)
    requires a != [] && b != [] && a[|a| - 1] == b[0]
    requires GapsWithin(d, tolerance, pts, a) && GapsWithin(d, tolerance, pts, b)
    ensures Within(a + b[1..], |pts|) && GapsWithin(d, tolerance, pts, a + b[1..])
  {
    var ks := a + b[1..];
    forall j, i | 0 <= j < |ks| - 1 && ks[j] < i < ks[j + 1]
      ensures d(pts[i], pts[ks[j]], pts[ks[j + 1]]) <= tolerance
    {
      if j + 1 < |a| {
        assert ks[j] == a[j] && ks[j + 1] == a[j + 1];
      } else {
        var t := j + 1 - |a|;
        assert ks[j] == b[t] && ks[j + 1] == b[t + 1];
      }
    }
  }

  lemma {:induction false} ChainGaps(d: Distance, tolerance: real, pts: seq<Point>, start: nat, end: nat)
    requires start < end < |pts|
    ensures GapsWithin(d, tolerance, pts, Chain(d, tolerance, pts, start, end))
    decreases end - start
  {
    if Splits(d, tolerance, pts, start, end) {
      var m := Farthest(d, pts, start, end);
      ChainGaps(d, tolerance, pts, start, m);
      ChainGaps(d, tolerance, pts, m, end);
      ChainSplits(d, tolerance, pts, start, end);
      JoinGaps(d, tolerance, pts, Chain(d, tolerance, pts, start, m), Chain(d, tolerance, pts, m, end));
    } else {
      assert Chain(d, tolerance, pts, start, end) == [start, end];
    }
  }

  /** For every list, distance and tolerance: the result is the sublist at strictly increasing
      indices, keeps both ends, and every dropped point lies between two consecutive kept points with
      its distance from their line at most the tolerance. */
  lemma SimplifiedMeaning(d: Distance, tolerance: real, pts: seq<Point>)
    requires |pts| >= 3
    ensures var ks := Chain(d, tolerance, pts, 0, |pts| - 1);
            && Simplified(d, tolerance, pts) == Select(pts, ks)
            && Increasing(ks) && ks[0] == 0 && ks[|ks| - 1] == |pts| - 1
            && GapsWithin(d, tolerance, pts, ks)
            && (forall i :: 0 <= i < |pts| && i !in ks ==>
                  exists j :: 0 <= j < |ks| - 1 && ks[j] < i < ks[j + 1])
  {
    ChainGaps(d, tolerance, pts, 0, |pts| - 1);
    DroppedAreBetween(Chain(d, tolerance, pts, 0, |pts| - 1));
  }

  lemma DroppedAreBetween(ks: seq<nat>)
    requires |ks| > 1 && Increasing(ks) && ks[0] == 0
    ensures forall i :: 0 <= i < ks[|ks| - 1] && i !in ks ==> exists j :: 0 <= j < |ks| - 1 && ks[j] < i < ks[j + 1]
  {
    forall i | 0 <= i < ks[|ks| - 1] && i !in ks ensures exists j :: 0 <= j < |ks| - 1 && ks[j] < i < ks[j + 1] {
      var j := Below(ks, i);
    }
  }

  /** The last index of an increasing list that lies below `i`. */
  lemma Below(ks: seq<nat>, i: nat) returns (j: nat)
    requires |ks| > 1 && ks[0] < i < ks[|ks| - 1] && i !in ks
    ensures j < |ks| - 1 && ks[j] < i < ks[j + 1]
  {
    j := 0;
    while ks[j + 1] < i
      invariant j < |ks| - 1 && ks[j] < i
      decreases |ks| - j
    {
      j := j + 1;
    }
    assert ks[j + 1] in ks;
  }

  /** When no point between the ends is farther than the tolerance from their line, only the ends are kept. */
  lemma NearPointsAreDropped(d: Distance, tolerance: real, pts: seq<Point>, start: nat, end: nat)
    requires start < end < |pts|
    requires forall i :: start < i < end ==> d(pts[i], pts[start], pts[end]) <= tolerance
    ensures Chain(d, tolerance, pts, start, end) == [start, end]
    ensures start == 0 && end == |pts| - 1 ==> Simplified(d, tolerance, pts) == [pts[start], pts[end]]
  {
    if start == 0 && end == |pts| - 1 && |pts| >= 3 {
      assert [start, end][..1] == [start] && [start][..0] == [];
      assert Select(pts, [start]) == [pts[start]];
    }
  }

  /** `k` is the first of the points between `a` and `b` farthest from their line, and farther than the tolerance. */
  ghost predicate IsFarthestBeyond(d: Distance, tolerance: real, pts: seq<Point>, a: nat, k: nat, b: nat) {
    && a < k < b < |pts|
    && (forall j :: a < j < b ==> d(pts[j], pts[a], pts[b]) <= d(pts[k], pts[a], pts[b]))
    && (forall j :: a < j < k ==> d(pts[j], pts[a], pts[b]) < d(pts[k], pts[a], pts[b]))
    && d(pts[k], pts[a], pts[b]) > tolerance
  }

  /** Every kept point but the ends lies between two kept points as the first farthest one from their line, and farther
      than the tolerance. */
  lemma {:induction false} KeptIsFarthest(d: Distance, tolerance: real, pts: seq<Point>, start: nat, end: nat, k: nat)
    returns (a: nat, b: nat)
    requires start < end < |pts| && k in Chain(d, tolerance, pts, start, end) && k != start && k != end
    ensures a in Chain(d, tolerance, pts, start, end) && b in Chain(d, tolerance, pts, start, end)
    ensures IsFarthestBeyond(d, tolerance, pts, a, k, b)
    decreases end - start
  {
    var m := Farthest(d, pts, start, end);
    a, b := start, end;
    if k != m {
      var left, right := Chain(d, tolerance, pts, start, m), Chain(d, tolerance, pts, m, end);
      ChainSplits(d, tolerance, pts, start, end);
      ChainParts(left, right);
      if k < m {
        a, b := KeptIsFarthest(d, tolerance, pts, start, m, k);
      } else {
        a, b := KeptIsFarthest(d, tolerance, pts, m, end, k);
      }
    }
  }

  lemma ChainParts(left: seq<nat>, right: seq<nat>)
    requires left != [] && right != [] && left[|left| - 1] == right[0]
    ensures forall k :: k in left + right[1..] <==> k in left || k in right
  {
    assert forall k :: k in right <==> k == right[0] || k in right[1..];
  }

  /** A coarser tolerance keeps a subset. */
  lemma {:induction false} CoarserKeepsLess(d: Distance, fine: real, coarse: real, pts: seq<Point>, start: nat, end: nat)
    requires start < end < |pts| && fine <= coarse
    ensures forall k :: k in Kept(d, coarse, pts, start, end) ==> k in Kept(d, fine, pts, start, end)
    decreases end - start
  {
    if Splits(d, coarse, pts, start, end) {
      var m := Farthest(d, pts, start, end);
      CoarserKeepsLess(d, fine, coarse, pts, start, m);
      CoarserKeepsLess(d, fine, coarse, pts, m, end);
    }
  }

  // ---------- simplifying twice ----------

  lemma FarthestUnique(d: Distance, pts: seq<Point>, start: nat, end: nat, m: nat)
    requires start < m < end < |pts|
    requires forall j :: start < j < end ==> d(pts[j], pts[start], pts[end]) <= d(pts[m], pts[start], pts[end])
    requires forall j :: start < j < m ==> d(pts[j], pts[start], pts[end]) < d(pts[m], pts[start], pts[end])
    ensures Farthest(d, pts, start, end) == m
  {
  }

  function Between(a: nat, b: nat): (r: seq<nat>)
    requires a < b
    ensures |r| == b - a - 1 && forall j :: 0 <= j < |r| ==> r[j] == a + 1 + j
  {
    seq(b - a - 1, j requires j >= 0 => a + 1 + j)
  }

  /** On the kept points alone, the same splits happen again and every point is kept: `a` and `b` are
      the places of `start` and `end` among the kept indices `ks`. */
  lemma {:induction false} KeptAgain(d: Distance, tolerance: real, pts: seq<Point>, start: nat, end: nat,
                                     ks: seq<nat>, q: seq<Point>, a: nat, b: nat)
    requires start < end < |pts| && a < b < |ks| == |q|
    requires Within(ks, |pts|) && forall j :: 0 <= j < |ks| ==> q[j] == pts[ks[j]]
    requires ks[a..b + 1] == Chain(d, tolerance, pts, start, end)
    ensures Kept(d, tolerance, q, a, b) == Between(a, b)
    decreases end - start
  {
    var chain := Chain(d, tolerance, pts, start, end);
    if Splits(d, tolerance, pts, start, end) {
      var m := Farthest(d, pts, start, end);
      ChainSplits(d, tolerance, pts, start, end);
      var c := a + |Chain(d, tolerance, pts, start, m)| - 1;
      Halves(ks, a, c, b, Chain(d, tolerance, pts, start, m), Chain(d, tolerance, pts, m, end));
      assert a < c;
      SameFarthest(d, tolerance, pts, start, end, ks, q, a, c, b);
      BetweenSplit(a, c, b);
      KeptAgain(d, tolerance, pts, start, m, ks, q, a, c);
      KeptAgain(d, tolerance, pts, m, end, ks, q, c, b);
    } else {
      assert chain == [start, end];
      assert |ks[a..b + 1]| == b + 1 - a;
    }
  }

  lemma BetweenSplit(a: nat, c: nat, b: nat)
    requires a < c < b
    ensures Between(a, c) + [c] + Between(c, b) == Between(a, b)
  {
  }

  lemma Halves(ks: seq<nat>, a: nat, c: nat, b: nat, left: seq<nat>, right: seq<nat>)
    requires left != [] && |right| >= 2 && left[|left| - 1] == right[0]
    requires a < b < |ks| && ks[a..b + 1] == left + right[1..] && c == a + |left| - 1
    ensures a <= c < b && ks[a..c + 1] == left && ks[c..b + 1] == right
  {
    var chain := ks[a..b + 1];
    assert ks[a..c + 1] == chain[..|left|];
    assert ks[c..b + 1] == chain[|left| - 1..];
  }

  /** The farthest of all points between is among the kept ones, so it is the farthest of those. */
  lemma SameFarthest(d: Distance, tolerance: real, pts: seq<Point>, start: nat, end: nat,
                     ks: seq<nat>, q: seq<Point>, a: nat, c: nat, b: nat)
    requires start < end < |pts| && Splits(d, tolerance, pts, start, end)
    requires a < c < b < |ks| == |q|
    requires Within(ks, |pts|) && forall j :: 0 <= j < |ks| ==> q[j] == pts[ks[j]]
    requires ks[a..b + 1] == Chain(d, tolerance, pts, start, end)
    requires ks[c] == Farthest(d, pts, start, end)
    ensures Splits(d, tolerance, q, a, b) && Farthest(d, q, a, b) == c
  {
    var chain := ks[a..b + 1];
    assert ks[a] == chain[0] && ks[b] == chain[b - a] && ks[c] == chain[c - a];
    forall j | a < j < b ensures start < ks[j] < end && (j < c ==> ks[j] < ks[c]) {
      assert ks[j] == chain[j - a];
    }
    FarthestUnique(d, q, a, b, c);
  }

  /** Simplifying a simplified line changes nothing. */
  lemma SimplifyIsIdempotent(d: Distance, tolerance: real, pts: seq<Point>)
    ensures Simplified(d, tolerance, Simplified(d, tolerance, pts)) == Simplified(d, tolerance, pts)
  {
    if |pts| >= 3 {
      var ks := Chain(d, tolerance, pts, 0, |pts| - 1);
      var q := Select(pts, ks);
      if |q| >= 3 {
        assert ks[0..|ks| - 1 + 1] == ks;
        KeptAgain(d, tolerance, pts, 0, |pts| - 1, ks, q, 0, |q| - 1);
        SelectAll(q, Chain(d, tolerance, q, 0, |q| - 1));
      }
    }
  }

  lemma SelectAll(q: seq<Point>, ks: seq<nat>)
    requires |q| >= 2 && Within(ks, |q|) && ks == [0] + Between(0, |q| - 1) + [|q| - 1]
    ensures Select(q, ks) == q
  {
    assert forall j :: 0 <= j < |ks| ==> ks[j] == j;
  }
}
