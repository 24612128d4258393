/** Interval union and intersection, as the overlap section of the deep report computes them.

    An interval is half open; what a list is for is the set of integer points it covers. */
module Intervals {

  datatype Interval = Interval(start: int, end: int)

  predicate Within(x: int, v: Interval) { v.start <= x < v.end }

  ghost function Range(v: Interval): set<int> { set x | v.start <= x < v.end && Within(x, v) }

  /** The points covered by a list, in any order and with any overlaps. */
  ghost function Points(a: seq<Interval>): set<int> {
    if a == [] then {} else Range(a[0]) + Points(a[1..])
  }

  /** No interval ends before it starts: every recorded one is `(start, start + elapsed)`. */
  ghost predicate Forward(a: seq<Interval>) { forall k | 0 <= k < |a| :: a[k].start <= a[k].end }

  /** Each interval ends strictly before the next one starts. */
  ghost predicate Gapped(a: seq<Interval>) { forall k | 0 < k < |a| :: a[k - 1].end < a[k].start }

  /** Each interval ends no later than the next one starts. */
  ghost predicate Separate(a: seq<Interval>) { forall k | 0 < k < |a| :: a[k - 1].end <= a[k].start }

  function Length(v: Interval): int { v.end - v.start }

  /** `interval_size`. */
  function Size(a: seq<Interval>): int {
    if a == [] then 0 else Length(a[0]) + Size(a[1..])
  }

  // ----- points -----

  lemma {:induction false} PointsAt(a: seq<Interval>, x: int)
    ensures x in Points(a) <==> exists k :: 0 <= k < |a| && a[k].start <= x < a[k].end
  {
    if a != [] {
      PointsAt(a[1..], x);
      if k :| 0 <= k < |a| && a[k].start <= x < a[k].end {
        assert k > 0 ==> a[1..][k - 1] == a[k];
      }
      if k :| 0 <= k < |a[1..]| && a[1..][k].start <= x < a[1..][k].end {
        assert a[k + 1] == a[1..][k];
      }
    }
  }

  lemma {:induction false} PointsConcat(a: seq<Interval>, b: seq<Interval>)
    ensures Points(a + b) == Points(a) + Points(b)
  {
    if a == [] {
      assert a + b == b;
    } else {
      assert (a + b)[1..] == a[1..] + b;
      PointsConcat(a[1..], b);
    }
  }

  lemma PointsOfOne(v: Interval)
    ensures Points([v]) == Range(v)
  {
    assert [v][1..] == [];
  }

  lemma {:induction false} RangeSize(v: Interval)
    ensures |Range(v)| == if v.start <= v.end then v.end - v.start else 0
    decreases v.end - v.start
  {
    if v.start < v.end {
      var w := Interval(v.start, v.end - 1);
      RangeSize(w);
      assert Range(v) == Range(w) + {v.end - 1};
    } else {
      assert Range(v) == {};
    }
  }

  /** What follows the first interval starts no earlier than it ends. */
  lemma {:induction false} LaterPoints(a: seq<Interval>, x: int)
    requires a != [] && Forward(a) && Separate(a) && x in Points(a[1..])
    ensures a[0].end <= x
    decreases |a|
  {
    if |a| > 1 {
      assert a[0].end <= a[1].start <= a[1].end;
      if x !in Range(a[1]) {
        assert Points(a[1..]) == Range(a[1]) + Points(a[1..][1..]);
        LaterPoints(a[1..], x);
      }
    }
  }

  /** The size of a separated list is its measure. */
  lemma {:induction false} SizeIsMeasure(a: seq<Interval>)
    requires Forward(a) && Separate(a)
    ensures Size(a) == |Points(a)|
    decreases |a|
  {
    if a != [] {
      SizeIsMeasure(a[1..]);
      RangeSize(a[0]);
      forall x | x in Points(a[1..]) ensures x !in Range(a[0]) { LaterPoints(a, x); }
      assert |Range(a[0]) + Points(a[1..])| == |Range(a[0])| + |Points(a[1..])|;
    }
  }

  /** The size of any list is at least the measure of what it covers. */
  lemma {:induction false} SizeBound(a: seq<Interval>)
    requires Forward(a)
    ensures |Points(a)| <= Size(a)
    decreases |a|
  {
    if a != [] {
      SizeBound(a[1..]);
      RangeSize(a[0]);
      var overlap := Range(a[0]) * Points(a[1..]);
      assert |Range(a[0]) + Points(a[1..])| == |Range(a[0])| + |Points(a[1..])| - |overlap|;
    }
  }

  // ----- sorting -----

  /** Python's order on pairs. */
  predicate Before(v: Interval, w: Interval) {
    v.start < w.start || (v.start == w.start && v.end <= w.end)
  }

  ghost predicate Ascending(a: seq<Interval>) { forall i, j | 0 <= i < j < |a| :: a[i].start <= a[j].start }

  function Insert(v: Interval, a: seq<Interval>): seq<Interval> {
    if a == [] || Before(v, a[0]) then [v] + a else [a[0]] + Insert(v, a[1..])
  }

  function Sorted(a: seq<Interval>): seq<Interval> {
    if a == [] then [] else Insert(a[0], Sorted(a[1..]))
  }

  lemma {:induction false} InsertPoints(v: Interval, a: seq<Interval>)
    ensures Points(Insert(v, a)) == Range(v) + Points(a)
    decreases |a|
  {
    if a == [] || Before(v, a[0]) {
      PointsConcat([v], a);
      PointsOfOne(v);
    } else {
      InsertPoints(v, a[1..]);
      PointsConcat([a[0]], Insert(v, a[1..]));
      PointsOfOne(a[0]);
    }
  }

  lemma {:induction false} InsertForward(v: Interval, a: seq<Interval>)
    requires Forward(a) && v.start <= v.end
    ensures Forward(Insert(v, a))
    decreases |a|
  {
    if !(a == [] || Before(v, a[0])) {
      InsertForward(v, a[1..]);
    }
  }

  lemma {:induction false} InsertAscending(v: Interval, a: seq<Interval>)
    requires Ascending(a)
    ensures Ascending(Insert(v, a))
    decreases |a|
  {
    if !(a == [] || Before(v, a[0])) {
      InsertAscending(v, a[1..]);
      InsertLow(v, a[1..], a[0].start);
    }
  }

  lemma {:induction false} InsertLow(v: Interval, a: seq<Interval>, low: int)
    requires low <= v.start && forall k | 0 <= k < |a| :: low <= a[k].start
    ensures forall k | 0 <= k < |Insert(v, a)| :: low <= Insert(v, a)[k].start
    decreases |a|
  {
    if !(a == [] || Before(v, a[0])) {
      InsertLow(v, a[1..], low);
    }
  }

  lemma {:induction false} SortedKeeps(a: seq<Interval>)
    ensures Ascending(Sorted(a)) && Points(Sorted(a)) == Points(a)
    ensures Forward(a) ==> Forward(Sorted(a))
    decreases |a|
  {
    if a != [] {
      SortedKeeps(a[1..]);
      InsertPoints(a[0], Sorted(a[1..]));
      InsertAscending(a[0], Sorted(a[1..]));
      if Forward(a) {
        InsertForward(a[0], Sorted(a[1..]));
      }
    }
  }

  // ----- merging -----

  /** Extending the last interval over an overlapping or touching one covers exactly both. */
  lemma ExtendLast(a: seq<Interval>, v: Interval)
    requires a != [] && a[|a| - 1].start <= v.start <= a[|a| - 1].end
    ensures Points(a[|a| - 1 := Widened(a[|a| - 1], v)]) == Points(a) + Range(v)
  {
    var last, before := a[|a| - 1], a[..|a| - 1];
    var wide := Widened(last, v);
    assert a == before + [last];
    assert a[|a| - 1 := wide] == before + [wide];
    PointsConcat(before, [last]);
    PointsConcat(before, [wide]);
    PointsOfOne(last);
    PointsOfOne(wide);
    assert Range(wide) == Range(last) + Range(v);
  }

  lemma PointsNext(a: seq<Interval>, i: nat)
    requires i < |a|
    ensures Points(a[..i + 1]) == Points(a[..i]) + Range(a[i])
  {
    assert a[..i + 1] == a[..i] + [a[i]];
    PointsConcat(a[..i], [a[i]]);
    PointsOfOne(a[i]);
  }

  lemma PointsAppend(a: seq<Interval>, v: Interval)
    ensures Points(a + [v]) == Points(a) + Range(v)
  {
    PointsConcat(a, [v]);
    PointsOfOne(v);
  }

  /** The merged list once the first i intervals have been taken in. */
  ghost predicate Merging(result: seq<Interval>, ordered: seq<Interval>, i: nat)
    requires i <= |ordered|
  {
    && Points(result) == Points(ordered[..i])
    && Gapped(result)
    && (Forward(ordered) ==> Forward(result))
    && (result != [] ==> forall k | i <= k < |ordered| :: result[|result| - 1].start <= ordered[k].start)
  }

  function Widened(last: Interval, v: Interval): Interval {
    Interval(last.start, if last.end < v.end then v.end else last.end)
  }

  lemma MergeInto(result: seq<Interval>, ordered: seq<Interval>, i: nat)
    requires i < |ordered| && Merging(result, ordered, i) && Ascending(ordered)
    requires result != [] && ordered[i].start <= result[|result| - 1].end
    ensures Merging(result[|result| - 1 := Widened(result[|result| - 1], ordered[i])], ordered, i + 1)
  {
    PointsNext(ordered, i);
    ExtendLast(result, ordered[i]);
  }

  lemma MergeAfter(result: seq<Interval>, ordered: seq<Interval>, i: nat)
    requires i < |ordered| && Merging(result, ordered, i) && Ascending(ordered)
    requires result != [] ==> result[|result| - 1].end < ordered[i].start
    ensures Merging(result + [ordered[i]], ordered, i + 1)
  {
    PointsNext(ordered, i);
    PointsAppend(result, ordered[i]);
  }

  /** `merge_intervals`, on any list: the same points, with a strict gap between neighbours. */
  method MergeIntervals(intervals: seq<Interval>) returns (result: seq<Interval>)
    ensures Points(result) == Points(intervals)
    ensures Gapped(result)
    ensures Forward(intervals) ==> Forward(result)
    ensures Forward(intervals) ==> Size(result) == |Points(intervals)| <= Size(intervals)
  {
    var ordered := Sorted(intervals);
    SortedKeeps(intervals);
    result := [];
    for i := 0 to |ordered|
      invariant Merging(result, ordered, i)
    {
      var v := ordered[i];
      if result != [] && v.start <= result[|result| - 1].end {
        MergeInto(result, ordered, i);
        var last := result[|result| - 1];
        result := result[|result| - 1 := Interval(last.start, if last.end < v.end then v.end else last.end)];
      } else {
        MergeAfter(result, ordered, i);
        result := result + [v];
      }
    }
    assert ordered[..|ordered|] == ordered;
    if Forward(intervals) {
      SizeIsMeasure(result);
      SizeBound(intervals);
    }
  }

  // ----- intersection -----

  function Shared(v: Interval, w: Interval): int {
    var low := if v.start < w.start then w.start else v.start;
    var high := if v.end < w.end then v.end else w.end;
    if high - low < 0 then 0 else high - low
  }

  lemma SharedSize(v: Interval, w: Interval)
    ensures |Range(v) * Range(w)| == Shared(v, w)
  {
    var both := Interval(if v.start < w.start then w.start else v.start, if v.end < w.end then v.end else w.end);
    assert Range(v) * Range(w) == Range(both);
    RangeSize(both);
  }

  /** Nothing of b after its first interval meets the first interval of a, if that one ends first. */
  lemma {:induction false} DropFirst(a: seq<Interval>, b: seq<Interval>)
    requires a != [] && b != [] && Forward(a) && Separate(a) && Forward(b) && Separate(b)
    requires a[0].end <= b[0].end
    ensures |Points(a) * Points(b)| == Shared(a[0], b[0]) + |Points(a[1..]) * Points(b)|
  {
    SharedSize(a[0], b[0]);
    forall x | x in Points(b[1..]) ensures x !in Range(a[0]) { LaterPoints(b, x); }
    forall x | x in Points(a[1..]) ensures x !in Range(a[0]) { LaterPoints(a, x); }
    var first, rest := Range(a[0]) * Range(b[0]), Points(a[1..]) * Points(b);
    assert Points(a) * Points(b) == first + rest;
    assert first !! rest;
  }

  /** The points still to be counted when the two cursors stand at i and j. */
  ghost function Ahead(a: seq<Interval>, b: seq<Interval>, i: nat, j: nat): int
    requires i <= |a| && j <= |b|
  {
    |Points(a[i..]) * Points(b[j..])|
  }

  lemma AheadFirst(a: seq<Interval>, b: seq<Interval>, i: nat, j: nat)
    requires Forward(a) && Separate(a) && Forward(b) && Separate(b)
    requires i < |a| && j < |b| && a[i].end <= b[j].end
    ensures Ahead(a, b, i, j) == Shared(a[i], b[j]) + Ahead(a, b, i + 1, j)
  {
    DropFirst(a[i..], b[j..]);
    assert a[i..][1..] == a[i + 1..];
  }

  lemma AheadSymmetric(a: seq<Interval>, b: seq<Interval>, i: nat, j: nat)
    requires i <= |a| && j <= |b|
    ensures Ahead(a, b, i, j) == Ahead(b, a, j, i)
  {
    assert Points(a[i..]) * Points(b[j..]) == Points(b[j..]) * Points(a[i..]);
  }

  lemma AheadSecond(a: seq<Interval>, b: seq<Interval>, i: nat, j: nat)
    requires Forward(a) && Separate(a) && Forward(b) && Separate(b)
    requires i < |a| && j < |b| && b[j].end <= a[i].end
    ensures Ahead(a, b, i, j) == Shared(a[i], b[j]) + Ahead(a, b, i, j + 1)
  {
    AheadFirst(b, a, j, i);
    AheadSymmetric(a, b, i, j);
    AheadSymmetric(a, b, i, j + 1);
  }

  lemma AheadEnds(a: seq<Interval>, b: seq<Interval>, i: nat, j: nat)
    requires i <= |a| && j <= |b|
    ensures i == 0 && j == 0 ==> Ahead(a, b, i, j) == |Points(a) * Points(b)|
    ensures i == |a| || j == |b| ==> Ahead(a, b, i, j) == 0
  {
    assert a[0..] == a && b[0..] == b;
    if i == |a| || j == |b| {
      assert Points(a[i..]) * Points(b[j..]) == {};
    }
  }

  /** `intersection`, on two separated lists: the number of points both cover. */
  method Intersection(a: seq<Interval>, b: seq<Interval>) returns (total: int)
    requires Forward(a) && Separate(a) && Forward(b) && Separate(b)
    ensures total == |Points(a) * Points(b)|
    ensures total <= Size(a) && total <= Size(b)
  {
    var i, j := 0, 0;
    total := 0;
    AheadEnds(a, b, 0, 0);
    while i < |a| && j < |b|
      invariant 0 <= i <= |a| && 0 <= j <= |b|
      invariant total + Ahead(a, b, i, j) == |Points(a) * Points(b)|
      decreases |a| - i + |b| - j
    {
      var low := if a[i].start < b[j].start then b[j].start else a[i].start;
      var high := if a[i].end < b[j].end then a[i].end else b[j].end;
      total := total + if high - low < 0 then 0 else high - low;
      if a[i].end < b[j].end {
        AheadFirst(a, b, i, j);
        i := i + 1;
      } else {
        AheadSecond(a, b, i, j);
        j := j + 1;
      }
    }
    AheadEnds(a, b, i, j);
    SizeIsMeasure(a);
    SizeIsMeasure(b);
    CommonIsSmaller(Points(a), Points(b));
  }

  lemma CommonIsSmaller(a: set<int>, b: set<int>)
    ensures |a * b| <= |a| && |a * b| <= |b|
  {
    assert a == a * b + (a - b);
    assert b == a * b + (b - a);
  }

  /** The overlap section: measures of the union of the waits, of the forks, and of what both cover. */
  method Overlap(waits: seq<Interval>, forks: seq<Interval>) returns (waitUnion: int, forkUnion: int, both: int)
    requires Forward(waits) && Forward(forks)
    ensures waitUnion == |Points(waits)| && forkUnion == |Points(forks)|
    ensures both == |Points(waits) * Points(forks)|
    ensures waitUnion + forkUnion - both == |Points(waits + forks)|
  {
    var mergedWaits := MergeIntervals(waits);
    var mergedForks := MergeIntervals(forks);
    waitUnion, forkUnion := Size(mergedWaits), Size(mergedForks);
    both := Intersection(mergedWaits, mergedForks);
    PointsConcat(waits, forks);
    assert |Points(waits) + Points(forks)| == |Points(waits)| + |Points(forks)| - |Points(waits) * Points(forks)|;
  }

  /** The order of the recorded intervals does not matter. */
  lemma PointsIgnoreOrder(a: seq<Interval>, b: seq<Interval>)
    requires multiset(a) == multiset(b)
    ensures Points(a) == Points(b)
  {
    forall x ensures x in Points(a) <==> x in Points(b) {
      PointsAt(a, x);
      PointsAt(b, x);
      if k :| 0 <= k < |a| && a[k].start <= x < a[k].end {
        assert a[k] in multiset(b);
        var j :| 0 <= j < |b| && b[j] == a[k];
      }
      if k :| 0 <= k < |b| && b[k].start <= x < b[k].end {
        assert b[k] in multiset(a);
        var j :| 0 <= j < |a| && a[j] == b[k];
      }
    }
  }
}
