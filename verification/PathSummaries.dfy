/** The bounded path summary of the first analysis: full statistics for the first keys seen, and a count of
    the calls that came too late for a row. */
module PathSummaries {
  import opened Percentiles

  datatype Key = Key(phase: string, op: string, path: string)

  /** One call with a path. */
  datatype Call = Call(key: Key, sample: Sample)

  /** The samples of one key, in order. */
  ghost function SamplesOf(calls: seq<Call>, k: Key): seq<Sample> {
    if calls == [] then [] else
      var last := calls[|calls| - 1];
      SamplesOf(calls[..|calls| - 1], k) + if last.key == k then [last.sample] else []
  }

  const SUMMARY_LIMIT := 20000

  /** The keys that get a row: the first so many distinct ones. */
  ghost function Admitted(calls: seq<Call>): set<Key> {
    if calls == [] then {} else
      var before, k := Admitted(calls[..|calls| - 1]), calls[|calls| - 1].key;
      if k in before || |before| >= SUMMARY_LIMIT then before else before + {k}
  }

  ghost function LeftOut(calls: seq<Call>, keys: set<Key>): int {
    if calls == [] then 0 else LeftOut(calls[..|calls| - 1], keys) + if calls[|calls| - 1].key in keys then 0 else 1
  }

  lemma CallsAppend(calls: seq<Call>, c: Call)
    ensures forall k :: SamplesOf(calls + [c], k) == SamplesOf(calls, k) + if c.key == k then [c.sample] else []
    ensures Admitted(calls + [c])
         == if c.key in Admitted(calls) || |Admitted(calls)| >= SUMMARY_LIMIT then Admitted(calls)
            else Admitted(calls) + {c.key}
    ensures forall keys :: LeftOut(calls + [c], keys) == LeftOut(calls, keys) + if c.key in keys then 0 else 1
  {
    assert (calls + [c])[..|calls|] == calls;
  }

  /** A key is refused only when the summary is full, so it never gets a row later. */
  lemma {:induction false} RefusedWhenFull(calls: seq<Call>, i: int)
    requires 0 <= i < |calls|
    ensures |Admitted(calls)| <= 20000
    ensures calls[i].key in Admitted(calls) || |Admitted(calls)| == 20000
    decreases |calls|
  {
    var t := calls[..|calls| - 1];
    if t != [] {
      RefusedWhenFull(t, if i < |t| then i else 0);
    }
  }

  ghost function KeysOf(calls: seq<Call>): set<Key> { set i | 0 <= i < |calls| :: calls[i].key }

  /** The first 20000 keys seen get rows, no other key does, and a row stays. */
  lemma {:induction false} FirstKeysGetRows(calls: seq<Call>, n: int)
    requires 0 <= n <= |calls|
    ensures Admitted(calls[..n]) <= Admitted(calls) <= KeysOf(calls)
    ensures |KeysOf(calls)| <= 20000 ==> Admitted(calls) == KeysOf(calls)
    decreases |calls|
  {
    if calls != [] {
      var before, c := calls[..|calls| - 1], calls[|calls| - 1];
      KeysGrow(before, c);
      assert calls == before + [c];
      FirstKeysGetRows(before, if n < |calls| then n else |before|);
      assert calls[..n] == if n < |calls| then before[..n] else calls;
    }
  }

  lemma KeysGrow(calls: seq<Call>, c: Call)
    ensures KeysOf(calls + [c]) == KeysOf(calls) + {c.key}
    ensures |KeysOf(calls)| <= |KeysOf(calls + [c])|
    ensures c.key !in KeysOf(calls) ==> |KeysOf(calls + [c])| == |KeysOf(calls)| + 1
  {
    var t := calls + [c];
    assert t[|calls|] == c;
    forall i | 0 <= i < |calls| ensures calls[i].key in KeysOf(t) { assert t[i] == calls[i]; }
    assert KeysOf(t) == KeysOf(calls) + {c.key};
    assert c.key in KeysOf(calls) ==> KeysOf(calls) + {c.key} == KeysOf(calls);
  }

  /** A key that gets a row only now has not been seen before. */
  lemma NewRowIsNew(calls: seq<Call>, k: Key)
    requires k !in Admitted(calls) && |Admitted(calls)| < SUMMARY_LIMIT
    ensures SamplesOf(calls, k) == []
    ensures forall keys :: LeftOut(calls, keys + {k}) == LeftOut(calls, keys)
  {
    forall i | 0 <= i < |calls| ensures calls[i].key != k {
      RefusedWhenFull(calls, i);
    }
    NewKeyIsNew(calls, k);
  }

  lemma {:induction false} NewKeyIsNew(calls: seq<Call>, k: Key)
    requires forall i | 0 <= i < |calls| :: calls[i].key != k
    ensures SamplesOf(calls, k) == []
    ensures forall keys :: LeftOut(calls, keys + {k}) == LeftOut(calls, keys)
    decreases |calls|
  {
    if calls != [] {
      NewKeyIsNew(calls[..|calls| - 1], k);
    }
  }

  /** The rows are those of the first keys, and the overflow is every call without a row. */
  ghost predicate Counted(keys: set<Key>, overflow: int, calls: seq<Call>) {
    keys == Admitted(calls) && |keys| <= SUMMARY_LIMIT && overflow == LeftOut(calls, keys)
  }

  lemma CountedNext(keys: set<Key>, overflow: int, calls: seq<Call>, c: Call)
    requires Counted(keys, overflow, calls)
    ensures c.key !in keys && |keys| >= SUMMARY_LIMIT ==> Counted(keys, overflow + 1, calls + [c])
    ensures c.key !in keys && |keys| < SUMMARY_LIMIT ==> SamplesOf(calls, c.key) == []
    ensures c.key in keys ==> Counted(keys, overflow, calls + [c])
    ensures c.key !in keys && |keys| < SUMMARY_LIMIT ==> Counted(keys + {c.key}, overflow, calls + [c])
  {
    CallsAppend(calls, c);
    if c.key !in keys && |keys| < SUMMARY_LIMIT {
      NewRowIsNew(calls, c.key);
    }
  }

  class Summary {
    var rows: map<Key, Stats>
    var overflow: int
    ghost var calls: seq<Call>

    ghost function Objects(): set<Stats>
      reads this
    {
      set k | k in rows :: rows[k]
    }

    /** Every row has the statistics of all calls of its key. */
    ghost predicate Kept()
      reads this, Objects()
    {
      && (forall k, l | k in rows && l in rows && rows[k] == rows[l] :: k == l)
      && forall k | k in rows :: rows[k].Valid() && rows[k].history == SamplesOf(calls, k)
    }

    ghost predicate Valid()
      reads this, Objects()
    {
      Kept() && Counted(rows.Keys, overflow, calls)
    }

    constructor ()
      ensures Valid() && calls == []
    {
      rows, overflow, calls := map[], 0, [];
    }

    method Record(k: Key, elapsed: int, exclusive: int, result: int)
      requires Valid() && elapsed >= 0
      modifies this, Objects()
      ensures Valid() && calls == old(calls) + [Call(k, Sample(elapsed, exclusive, result, k.op))]
      ensures fresh(Objects() - old(Objects()))
    {
      CountedNext(rows.Keys, overflow, calls, Call(k, Sample(elapsed, exclusive, result, k.op)));
      assert |rows| == |rows.Keys|;
      if k !in rows && |rows| >= SUMMARY_LIMIT {
        Skip(k, Sample(elapsed, exclusive, result, k.op));
      } else if k !in rows {
        RecordFirst(k, elapsed, exclusive, result);
      } else {
        Enter(k, elapsed, exclusive, result);
      }
    }

    /** The first call of a key that gets a row. */
    method RecordFirst(k: Key, elapsed: int, exclusive: int, result: int)
      requires Kept() && k !in rows && elapsed >= 0 && SamplesOf(calls, k) == []
      requires Counted(rows.Keys + {k}, overflow, calls + [Call(k, Sample(elapsed, exclusive, result, k.op))])
      modifies `rows, `calls
      ensures Valid() && calls == old(calls) + [Call(k, Sample(elapsed, exclusive, result, k.op))]
      ensures fresh(Objects() - old(Objects()))
    {
      NewRow(k);
      Enter(k, elapsed, exclusive, result);
    }

    /** A call without a row. */
    method Skip(k: Key, ghost s: Sample)
      requires Kept() && k !in rows && Counted(rows.Keys, overflow + 1, calls + [Call(k, s)])
      modifies `overflow, `calls
      ensures Valid() && calls == old(calls) + [Call(k, s)]
    {
      CallsAppend(calls, Call(k, s));
      overflow := overflow + 1;
      calls := calls + [Call(k, s)];
    }

    method NewRow(k: Key)
      requires Kept() && k !in rows && SamplesOf(calls, k) == []
      modifies `rows
      ensures Kept() && rows.Keys == old(rows.Keys) + {k} && fresh(rows[k]) && fresh(Objects() - old(Objects()))
    {
      var row := new Stats();
      ghost var before := rows;
      assert forall l | l in before :: before[l] != row;
      rows := rows[k := row];
      forall l | l in rows ensures rows[l].Valid() && rows[l].history == SamplesOf(calls, l) {
        assert l != k ==> l in before && rows[l] == before[l];
      }
    }

    /** A call is entered in its row. */
    method Enter(k: Key, elapsed: int, exclusive: int, result: int)
      requires Kept() && k in rows && elapsed >= 0
      requires Counted(rows.Keys, overflow, calls + [Call(k, Sample(elapsed, exclusive, result, k.op))])
      modifies `calls, rows[k]
      ensures Valid() && calls == old(calls) + [Call(k, Sample(elapsed, exclusive, result, k.op))]
    {
      CallsAppend(calls, Call(k, Sample(elapsed, exclusive, result, k.op)));
      rows[k].Add(elapsed, exclusive, result, k.op);
      calls := calls + [Call(k, Sample(elapsed, exclusive, result, k.op))];
    }
  }
}
