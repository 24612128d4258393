/** The running statistics of one operation, and the percentiles its power-of-two histogram reports. */
module Percentiles {
  import Collections
  import Tallies

  // ----- powers of two -----

  /** Python's `int.bit_length` of a value that is not negative. */
  function BitLength(n: int): int {
    if n <= 0 then 0 else 1 + BitLength(n / 2)
  }

  function Pow2(e: int): int {
    if e <= 0 then 1 else 2 * Pow2(e - 1)
  }

  /** A sample lies in the bucket below the power of two of its bit length. */
  lemma {:induction false} BitLengthBounds(n: int)
    requires n >= 0
    ensures BitLength(n) >= 0 && n < Pow2(BitLength(n))
    ensures n > 0 ==> Pow2(BitLength(n)) <= 2 * n
    decreases n
  {
    if n > 0 {
      BitLengthBounds(n / 2);
      if n == 1 {
        assert BitLength(0) == 0;
      }
    }
  }

  lemma {:induction false} BitLengthMonotone(m: int, n: int)
    requires m <= n
    ensures 0 <= BitLength(m) <= BitLength(n)
    decreases if n < 0 then 0 else n
  {
    if 0 < n {
      BitLengthMonotone(if m <= 0 then 0 else m / 2, n / 2);
    }
  }

  // ----- counting samples -----

  ghost function CountAt(s: seq<int>, e: int): int {
    if s == [] then 0 else CountAt(s[..|s| - 1], e) + if BitLength(s[|s| - 1]) == e then 1 else 0
  }

  ghost function CountUpTo(s: seq<int>, e: int): int {
    if s == [] then 0 else CountUpTo(s[..|s| - 1], e) + if BitLength(s[|s| - 1]) <= e then 1 else 0
  }

  lemma {:induction false} CountUpToRange(s: seq<int>, e: int)
    ensures 0 <= CountUpTo(s, e) <= |s|
    ensures (forall k | 0 <= k < |s| :: BitLength(s[k]) <= e) ==> CountUpTo(s, e) == |s|
    ensures (forall k | 0 <= k < |s| :: BitLength(s[k]) > e) ==> CountUpTo(s, e) == 0
  {
    if s != [] {
      CountUpToRange(s[..|s| - 1], e);
    }
  }

  lemma {:induction false} CountAtPositive(s: seq<int>, e: int)
    ensures CountAt(s, e) >= 0
    ensures CountAt(s, e) > 0 <==> exists k :: 0 <= k < |s| && BitLength(s[k]) == e
  {
    if s != [] {
      var t := s[..|s| - 1];
      CountAtPositive(t, e);
      if k :| 0 <= k < |s| && BitLength(s[k]) == e {
        assert k < |t| ==> t[k] == s[k];
      }
      if k :| 0 <= k < |t| && BitLength(t[k]) == e {
        assert BitLength(s[k]) == e;
      }
    }
  }

  /** Between neighbouring buckets there is nothing to count. */
  lemma {:induction false} CountStep(s: seq<int>, low: int, e: int)
    requires low < e && forall k | 0 <= k < |s| :: BitLength(s[k]) <= low || BitLength(s[k]) >= e
    ensures CountUpTo(s, e) == CountUpTo(s, low) + CountAt(s, e)
  {
    if s != [] {
      CountStep(s[..|s| - 1], low, e);
    }
  }

  lemma {:induction false} CountRemove(t: seq<int>, j: int, e: int)
    requires 0 <= j < |t|
    ensures CountUpTo(t, e) == CountUpTo(t[..j] + t[j + 1..], e) + if BitLength(t[j]) <= e then 1 else 0
    decreases |t|
  {
    var n := |t| - 1;
    if j < n {
      var rest := t[..j] + t[j + 1..];
      CountRemove(t[..n], j, e);
      assert rest[..n - 1] == t[..n][..j] + t[..n][j + 1..];
      assert rest[n - 1] == t[n];
    } else {
      assert t[..j] + t[j + 1..] == t[..n];
    }
  }

  lemma {:induction false} CountPermuted(s: seq<int>, t: seq<int>, e: int)
    requires multiset(s) == multiset(t)
    ensures CountUpTo(s, e) == CountUpTo(t, e)
    decreases |s|
  {
    if s == [] {
      assert |multiset(t)| == 0;
    } else {
      var n := |s| - 1;
      var x := s[n];
      assert x in multiset(t);
      var j :| 0 <= j < |t| && t[j] == x;
      assert s == s[..n] + [x];
      assert t == t[..j] + [x] + t[j + 1..];
      assert multiset(s) == multiset(s[..n]) + multiset{x};
      assert multiset(t) == multiset(t[..j] + t[j + 1..]) + multiset{x};
      assert multiset(s[..n]) == multiset(s) - multiset{x};
      CountPermuted(s[..n], t[..j] + t[j + 1..], e);
      CountRemove(t, j, e);
    }
  }

  ghost predicate Ascending(t: seq<int>) { forall i, j | 0 <= i <= j < |t| :: t[i] <= t[j] }

  /** In ascending order the samples of the first buckets come first. */
  lemma {:induction false} CountIsPrefix(t: seq<int>, e: int, i: int)
    requires Ascending(t) && 0 <= i < |t|
    ensures i < CountUpTo(t, e) <==> BitLength(t[i]) <= e
    decreases |t|
  {
    var n := |t| - 1;
    CountUpToRange(t[..n], e);
    if BitLength(t[n]) <= e {
      forall k | 0 <= k <= n ensures BitLength(t[k]) <= e { BitLengthMonotone(t[k], t[n]); }
    } else if i < n {
      CountIsPrefix(t[..n], e, i);
    }
  }

  // ----- ranks -----

  /** k is the least rank at or above the threshold, a fraction of the count. */
  ghost predicate Rank(k: int, count: int, threshold: real) {
    1 <= k <= count && threshold <= k as real && (k == 1 || (k - 1) as real < threshold)
  }

  /** t lists the samples in ascending order. */
  ghost predicate Ordering(t: seq<int>, samples: seq<int>) { Ascending(t) && multiset(t) == multiset(samples) }

  /** upper is a strict bound on the sample q, and at most twice it. */
  ghost predicate TightBound(upper: int, q: int) {
    q < upper && (q > 0 ==> upper <= 2 * q) && (q == 0 ==> upper == 1)
  }

  /** The bucket in which the count first reaches the fraction is that of the k-th smallest sample. */
  lemma QuantileBucket(samples: seq<int>, t: seq<int>, threshold: real, k: int, low: int, e: int)
    requires Ordering(t, samples) && Rank(k, |samples|, threshold)
    requires forall x | x in samples :: x >= 0
    requires low < e && forall i | 0 <= i < |samples| :: BitLength(samples[i]) <= low || BitLength(samples[i]) >= e
    requires low == -1 || (CountUpTo(samples, low) as real) < threshold
    requires CountAt(samples, e) > 0 && threshold <= CountUpTo(samples, e) as real
    ensures |t| == |samples| && BitLength(t[k - 1]) == e && TightBound(Pow2(e), t[k - 1])
  {
    assert |multiset(t)| == |multiset(samples)|;
    CountStep(samples, low, e);
    CountPermuted(samples, t, low);
    CountPermuted(samples, t, e);
    CountUpToRange(samples, low);
    CountIsPrefix(t, e, k - 1);
    CountIsPrefix(t, low, k - 1);
    var q := t[k - 1];
    assert q in multiset(samples);
    assert q in samples;
    BitLengthBounds(q);
  }

  // ----- Stats -----

  datatype Outcome = Unknown | Code(result: int) | Pending | Success

  const UNKNOWN := -0x8000_0000_0000_0000
  const STATUS_PENDING := 0x103

  function OutcomeOf(result: int, op: string): Outcome {
    if result == UNKNOWN then Unknown
    else if result < 0 then Code(result)
    else if result == STATUS_PENDING && "native.Nt" <= op then Pending
    else Success
  }

  /** One `Stats.add` call. */
  datatype Sample = Sample(elapsed: int, exclusive: int, result: int, op: string)

  /** The bytes a call moved, if it is one that moves bytes. */
  function Moved(s: Sample): int {
    if s.op in {"vfs.read", "vfs.write", "map.read_once", "map.write_once"} && s.result > 0 then s.result else 0
  }

  ghost function Times(h: seq<Sample>): seq<int> { seq(|h|, i requires 0 <= i < |h| => h[i].elapsed) }

  ghost function SumElapsed(h: seq<Sample>): int {
    if h == [] then 0 else SumElapsed(h[..|h| - 1]) + h[|h| - 1].elapsed
  }

  ghost function SumExclusive(h: seq<Sample>): int {
    if h == [] then 0 else SumExclusive(h[..|h| - 1]) + h[|h| - 1].exclusive
  }

  ghost function SumBytes(h: seq<Sample>): int {
    if h == [] then 0 else SumBytes(h[..|h| - 1]) + Moved(h[|h| - 1])
  }

  ghost function CountOutcome(h: seq<Sample>, o: Outcome): int {
    if h == [] then 0 else
      CountOutcome(h[..|h| - 1], o) + if OutcomeOf(h[|h| - 1].result, h[|h| - 1].op) == o then 1 else 0
  }

  function Get<K>(m: map<K, int>, k: K): int { if k in m then m[k] else 0 }

  /** How a result is classed. */
  lemma OutcomeIs(result: int, op: string)
    ensures OutcomeOf(result, op) == Unknown <==> result == -9223372036854775808
    ensures forall n :: OutcomeOf(result, op) == Code(n) <==> result == n && n < 0 && n != -9223372036854775808
    ensures OutcomeOf(result, op) == Pending <==> result == 259 && |op| >= 9 && op[..9] == "native.Nt"
    ensures OutcomeOf(result, op) == Success <==> result >= 0 && !(result == 259 && |op| >= 9 && op[..9] == "native.Nt")
  {
    assert "native.Nt" <= op <==> |op| >= 9 && op[..9] == "native.Nt";
  }

  ghost predicate MovesBytes(s: Sample) {
    s.result > 0 && (s.op == "vfs.read" || s.op == "vfs.write" || s.op == "map.read_once" || s.op == "map.write_once")
  }

  ghost function Transfers(h: seq<Sample>): set<nat> { set i: nat | i < |h| && MovesBytes(h[i]) }

  ghost function Results(h: seq<Sample>): nat -> int { (i: nat) => if i < |h| then h[i].result else 0 }

  /** The bytes are those of the reads and writes that moved any. */
  lemma {:induction false} BytesAre(h: seq<Sample>)
    ensures SumBytes(h) == Tallies.Total(Transfers(h), Results(h))
  {
    if h != [] {
      var before, k: nat := h[..|h| - 1], |h| - 1;
      BytesAre(before);
      assert Transfers(before) == Transfers(h) - {k};
      Tallies.TotalSame(Transfers(before), Results(before), Results(h));
      if MovesBytes(h[k]) {
        Tallies.TotalRemove(Transfers(h), k, Results(h));
      } else {
        assert Transfers(before) == Transfers(h);
      }
    }
  }

  ghost function Classed(h: seq<Sample>, o: Outcome): set<nat> {
    set i: nat | i < |h| && OutcomeOf(h[i].result, h[i].op) == o
  }

  /** The counter of a class is the number of calls in it. */
  lemma {:induction false} CountsAre(h: seq<Sample>, o: Outcome)
    ensures CountOutcome(h, o) == |Classed(h, o)|
  {
    if h != [] {
      var before, k: nat := h[..|h| - 1], |h| - 1;
      CountsAre(before, o);
      ClassedNext(before, h[k], o);
      assert h == before + [h[k]];
    }
  }

  lemma ClassedNext(h: seq<Sample>, s: Sample, o: Outcome)
    ensures |Classed(h + [s], o)| == |Classed(h, o)| + if OutcomeOf(s.result, s.op) == o then 1 else 0
  {
    var last: nat, was, now := |h|, Classed(h, o), Classed(h + [s], o);
    forall i | i in now && i != last ensures i in was {}
    forall i | i in was ensures i in now { assert (h + [s])[i] == h[i]; }
    assert last !in was && (last in now <==> OutcomeOf(s.result, s.op) == o);
    assert now == was + if last in now then {last} else {};
  }

  // ----- the buckets in order -----

  ghost predicate Increasing(keys: seq<int>) { forall i, j | 0 <= i < j < |keys| :: keys[i] < keys[j] }

  function InsertKey(x: int, keys: seq<int>): seq<int> {
    if keys == [] || x < keys[0] then [x] + keys else [keys[0]] + InsertKey(x, keys[1..])
  }

  lemma {:induction false} InsertKeyKeeps(x: int, keys: seq<int>)
    requires Increasing(keys) && x !in keys
    ensures Increasing(InsertKey(x, keys))
    ensures forall k :: k in InsertKey(x, keys) <==> k == x || k in keys
    decreases |keys|
  {
    if keys == [] || x < keys[0] {
      assert forall k | k in keys :: x < k;
    } else {
      InsertKeyKeeps(x, keys[1..]);
      var rest := InsertKey(x, keys[1..]);
      assert keys == [keys[0]] + keys[1..];
      forall m | 0 <= m < |rest| ensures keys[0] < rest[m] {
        assert rest[m] in rest && (rest[m] == x || rest[m] in keys[1..]);
      }
    }
  }

  method SortedKeys(h: map<int, int>) returns (keys: seq<int>)
    ensures Increasing(keys) && forall k :: k in keys <==> k in h
  {
    keys := [];
    var todo := h.Keys;
    while todo != {}
      invariant todo <= h.Keys
      invariant Increasing(keys) && forall k :: k in keys <==> k in h && k !in todo
      decreases todo
    {
      ghost var some := Collections.Pick(todo);
      var x :| x in todo;
      InsertKeyKeeps(x, keys);
      keys := InsertKey(x, keys);
      todo := todo - {x};
    }
  }

  ghost predicate Buckets(h: map<int, int>, samples: seq<int>) {
    (forall e :: Get(h, e) == CountAt(samples, e)) && (forall e | e in h :: h[e] > 0)
  }

  /** No sample lies between two neighbouring buckets, or below the first. */
  lemma Neighbours(h: map<int, int>, samples: seq<int>, keys: seq<int>, j: int, low: int)
    requires Buckets(h, samples) && Increasing(keys) && forall k :: k in keys <==> k in h
    requires 0 <= j < |keys| && low == if j == 0 then -1 else keys[j - 1]
    ensures low < keys[j] && CountAt(samples, keys[j]) == h[keys[j]] > 0
    ensures forall i | 0 <= i < |samples| :: BitLength(samples[i]) <= low || BitLength(samples[i]) >= keys[j]
  {
    assert keys[j] in h && Get(h, keys[j]) == CountAt(samples, keys[j]);
    CountAtPositive(samples, keys[j]);
    forall i | 0 <= i < |samples| ensures BitLength(samples[i]) <= low || BitLength(samples[i]) >= keys[j] {
      CountAtPositive(samples, BitLength(samples[i]));
      assert Get(h, BitLength(samples[i])) > 0;
      var m :| 0 <= m < |keys| && keys[m] == BitLength(samples[i]);
    }
    var i :| 0 <= i < |samples| && BitLength(samples[i]) == keys[j];
    BitLengthMonotone(samples[i], samples[i]);
  }

  lemma AllCounted(h: map<int, int>, samples: seq<int>, keys: seq<int>)
    requires Buckets(h, samples) && Increasing(keys) && forall k :: k in keys <==> k in h
    ensures CountUpTo(samples, if keys == [] then -1 else keys[|keys| - 1]) == |samples|
    ensures CountUpTo(samples, -1) == 0
  {
    var top := if keys == [] then -1 else keys[|keys| - 1];
    forall i | 0 <= i < |samples| ensures -1 < BitLength(samples[i]) <= top {
      BitLengthMonotone(samples[i], samples[i]);
      CountAtPositive(samples, BitLength(samples[i]));
      assert Get(h, BitLength(samples[i])) > 0;
      var m :| 0 <= m < |keys| && keys[m] == BitLength(samples[i]);
    }
    CountUpToRange(samples, top);
    CountUpToRange(samples, -1);
  }

  /** The counters the percentiles depend on, against the samples they were built from. */
  ghost predicate Timed(count: int, elapsed: int, maximum: int, histogram: map<int, int>, h: seq<Sample>) {
    && count == |h| && elapsed == SumElapsed(h)
    && (forall x | x in Times(h) :: 0 <= x <= maximum)
    && maximum >= 0 && (maximum > 0 ==> maximum in Times(h))
    && Buckets(histogram, Times(h))
  }

  lemma SumsAppend(h: seq<Sample>, s: Sample)
    ensures SumElapsed(h + [s]) == SumElapsed(h) + s.elapsed && SumExclusive(h + [s]) == SumExclusive(h) + s.exclusive
    ensures SumBytes(h + [s]) == SumBytes(h) + Moved(s)
    ensures forall o :: CountOutcome(h + [s], o) == CountOutcome(h, o) + if OutcomeOf(s.result, s.op) == o then 1 else 0
  {
    assert (h + [s])[..|h|] == h;
  }

  /** The counters that depend on the results of the calls. */
  ghost predicate Classified(exclusive: int, bytes: int, results: map<Outcome, int>, h: seq<Sample>) {
    && exclusive == SumExclusive(h) && bytes == SumBytes(h)
    && forall o :: Get(results, o) == CountOutcome(h, o)
  }

  lemma ClassifiedAppend(exclusive: int, bytes: int, results: map<Outcome, int>, h: seq<Sample>, s: Sample)
    requires Classified(exclusive, bytes, results, h)
    ensures Classified(exclusive + s.exclusive, bytes + Moved(s),
                       results[OutcomeOf(s.result, s.op) := Get(results, OutcomeOf(s.result, s.op)) + 1], h + [s])
  {
    SumsAppend(h, s);
    var o := OutcomeOf(s.result, s.op);
    var after := results[o := Get(results, o) + 1];
    forall p ensures Get(after, p) == CountOutcome(h + [s], p) {
      assert Get(results, p) == CountOutcome(h, p);
    }
  }

  lemma BucketsAppend(histogram: map<int, int>, samples: seq<int>, x: int)
    requires Buckets(histogram, samples)
    ensures Buckets(histogram[BitLength(x) := Get(histogram, BitLength(x)) + 1], samples + [x])
  {
    assert (samples + [x])[..|samples|] == samples;
    CountAtPositive(samples, BitLength(x));
    assert Get(histogram, BitLength(x)) >= 0;
    var after := histogram[BitLength(x) := Get(histogram, BitLength(x)) + 1];
    forall e ensures Get(after, e) == CountAt(samples + [x], e) {
      assert Get(histogram, e) == CountAt(samples, e);
    }
  }

  lemma TimedAppend(count: int, elapsed: int, maximum: int, histogram: map<int, int>, h: seq<Sample>, s: Sample)
    requires Timed(count, elapsed, maximum, histogram, h) && s.elapsed >= 0
    ensures Timed(count + 1, elapsed + s.elapsed, if s.elapsed > maximum then s.elapsed else maximum,
                  histogram[BitLength(s.elapsed) := Get(histogram, BitLength(s.elapsed)) + 1], h + [s])
  {
    SumsAppend(h, s);
    assert Times(h + [s]) == Times(h) + [s.elapsed];
    BucketsAppend(histogram, Times(h), s.elapsed);
  }

  class Stats {
    var count: int
    var elapsed: int
    var exclusive: int
    var maximum: int
    var bytes: int
    var results: map<Outcome, int>
    var histogram: map<int, int>
    ghost var history: seq<Sample>

    ghost predicate Valid()
      reads this
    {
      && Timed(count, elapsed, maximum, histogram, history)
      && Classified(exclusive, bytes, results, history)
    }

    constructor ()
      ensures Valid() && history == []
    {
      count, elapsed, exclusive, maximum, bytes := 0, 0, 0, 0, 0;
      results, histogram := map[], map[];
      history := [];
    }

    method Add(sampleElapsed: int, sampleExclusive: int, result: int, op: string)
      requires Valid() && sampleElapsed >= 0
      modifies this
      ensures Valid()
      ensures history == old(history) + [Sample(sampleElapsed, sampleExclusive, result, op)]
    {
      var s := Sample(sampleElapsed, sampleExclusive, result, op);
      TimedAppend(count, elapsed, maximum, histogram, history, s);
      ClassifiedAppend(exclusive, bytes, results, history, s);
      var o, bucket := OutcomeOf(result, op), BitLength(sampleElapsed);
      var most := if sampleElapsed > maximum then sampleElapsed else maximum;
      count, elapsed, exclusive, bytes := count + 1, elapsed + sampleElapsed, exclusive + sampleExclusive,
          bytes + Moved(s);
      maximum, histogram := most, histogram[bucket := Get(histogram, bucket) + 1];
      results, history := results[o := Get(results, o) + 1], history + [s];
    }

    /** `report`: the two percentiles, in nanoseconds. */
    method Report() returns (p50: int, p95: int)
      requires Valid()
      ensures Reported(p50, p95, count, Times(history))
    {
      TimedMeans(count, elapsed, maximum, histogram, history);
      p50, p95 := Percentiles(histogram, count, Times(history));
    }
  }

  /** Both percentiles bound their quantiles; without samples both are 0. */
  ghost predicate Reported(p50: int, p95: int, count: int, samples: seq<int>) {
    if count == 0 then p50 == p95 == 0 else
      BoundsQuantile(p50, samples, count as real * 0.5) && BoundsQuantile(p95, samples, count as real * 0.95)
  }

  lemma TimedMeans(count: int, elapsed: int, maximum: int, histogram: map<int, int>, h: seq<Sample>)
    requires Timed(count, elapsed, maximum, histogram, h)
    ensures Buckets(histogram, Times(h)) && count == |Times(h)| && forall x | x in Times(h) :: x >= 0
  {
  }

  method Percentiles(histogram: map<int, int>, count: int, ghost samples: seq<int>) returns (p50: int, p95: int)
    requires Buckets(histogram, samples) && count == |samples| && forall x | x in samples :: x >= 0
    ensures Reported(p50, p95, count, samples)
  {
    p50 := Percentile(histogram, count, count as real * 0.5, samples);
    p95 := Percentile(histogram, count, count as real * 0.95, samples);
  }

  /** `percentile`, given the product of count and fraction: the upper end of the bucket in which that
      many samples have been seen; 0 when none is. */
  method Percentile(histogram: map<int, int>, count: int, threshold: real, ghost samples: seq<int>) returns (upper: int)
    requires Buckets(histogram, samples) && count == |samples| && forall x | x in samples :: x >= 0
    ensures upper >= 0
    ensures upper > 0 <==> count > 0 && threshold <= count as real
    ensures upper > 0 ==> BoundsQuantile(upper, samples, threshold)
  {
    var keys := SortedKeys(histogram);
    var seen := 0;
    AllCounted(histogram, samples, keys);
    for j := 0 to |keys|
      invariant seen == CountUpTo(samples, Low(keys, j))
      invariant j > 0 ==> (seen as real) < threshold
    {
      ScanStep(histogram, samples, keys, j, threshold);
      seen := seen + histogram[keys[j]];
      if seen as real >= threshold {
        return Pow2(keys[j]);
      }
    }
    return 0;
  }

  /** Whenever the threshold is within the count there is a least rank reaching it. */
  lemma RankExists(count: int, threshold: real)
    requires count > 0 && threshold <= count as real
    ensures exists k :: Rank(k, count, threshold)
  {
    var up := -((-threshold).Floor);
    var k := if up < 1 then 1 else up;
    assert Rank(k, count, threshold);
  }

  function Low(keys: seq<int>, j: int): int
    requires 0 <= j <= |keys|
  {
    if j == 0 then -1 else keys[j - 1]
  }

  lemma ScanStep(h: map<int, int>, samples: seq<int>, keys: seq<int>, j: int, threshold: real)
    requires Buckets(h, samples) && Increasing(keys) && (forall k :: k in keys <==> k in h)
    requires 0 <= j < |keys| && forall x | x in samples :: x >= 0
    requires j > 0 ==> (CountUpTo(samples, Low(keys, j)) as real) < threshold
    ensures keys[j] in h && CountUpTo(samples, keys[j]) == CountUpTo(samples, Low(keys, j)) + h[keys[j]]
    ensures CountUpTo(samples, keys[j]) <= |samples| && samples != []
    ensures threshold <= CountUpTo(samples, keys[j]) as real
        ==> Pow2(keys[j]) > 0 && BoundsQuantile(Pow2(keys[j]), samples, threshold)
  {
    Neighbours(h, samples, keys, j, Low(keys, j));
    CountStep(samples, Low(keys, j), keys[j]);
    CountUpToRange(samples, keys[j]);
    if threshold <= CountUpTo(samples, keys[j]) as real {
      BucketBounds(samples, threshold, Low(keys, j), keys[j]);
    }
  }

  /** upper is above, and within a factor two of, the least sample whose rank reaches the fraction. */
  ghost predicate BoundsQuantile(upper: int, samples: seq<int>, threshold: real) {
    forall t, k :: Ordering(t, samples) && Rank(k, |samples|, threshold) ==>
        |t| == |samples| && TightBound(upper, t[k - 1])
  }

  lemma BucketBounds(samples: seq<int>, threshold: real, low: int, e: int)
    requires forall x | x in samples :: x >= 0
    requires low < e && forall i | 0 <= i < |samples| :: BitLength(samples[i]) <= low || BitLength(samples[i]) >= e
    requires low == -1 || (CountUpTo(samples, low) as real) < threshold
    requires CountAt(samples, e) > 0 && threshold <= CountUpTo(samples, e) as real
    ensures Pow2(e) > 0 && BoundsQuantile(Pow2(e), samples, threshold)
  {
    Pow2Positive(e);
    forall t, k | Ordering(t, samples) && Rank(k, |samples|, threshold)
      ensures |t| == |samples| && TightBound(Pow2(e), t[k - 1])
    {
      QuantileBucket(samples, t, threshold, k, low, e);
    }
  }

  lemma {:induction false} Pow2Positive(e: int)
    ensures Pow2(e) > 0
    decreases if e < 0 then 0 else e
  {
    if e > 0 {
      Pow2Positive(e - 1);
    }
  }
}
