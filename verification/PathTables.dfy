/** The per-path table of the deep analysis: its rows are batched in front of a database table. */
module PathTables {

  datatype Key = Key(op: string, path: string, result: int)

  datatype PathRow = PathRow(calls: int, ns: int, selfNs: int)

  const EMPTY := PathRow(0, 0, 0)

  function Plus(a: PathRow, b: PathRow): PathRow {
    PathRow(a.calls + b.calls, a.ns + b.ns, a.selfNs + b.selfNs)
  }

  function Get<K>(rows: map<K, PathRow>, k: K): PathRow { if k in rows then rows[k] else EMPTY }

  // ----- the batch in front of the table -----

  /** An event as the path statistics see it; `exclusive` may be negative. */
  datatype Visit = Visit(key: Key, elapsed: int, exclusive: int)

  predicate HasPath(v: Visit) { v.key.path != "" }

  function RowOf(v: Visit): PathRow {
    PathRow(1, v.elapsed, if v.exclusive < 0 then 0 else v.exclusive)
  }

  /** The exact aggregate of all events with the key. */
  ghost function Aggregate(history: seq<Visit>, k: Key): PathRow {
    if history == [] then EMPTY else
      var v := history[|history| - 1];
      Plus(Aggregate(history[..|history| - 1], k), if HasPath(v) && v.key == k then RowOf(v) else EMPTY)
  }

  /** The sum over all events. */
  ghost function SumOver(history: seq<Visit>, f: Visit -> int): int {
    if history == [] then 0 else SumOver(history[..|history| - 1], f) + f(history[|history| - 1])
  }

  ghost function Ones(k: Key): Visit -> int { (v: Visit) => if v.key == k then 1 else 0 }

  ghost function Elapsed(k: Key): Visit -> int { (v: Visit) => if v.key == k then v.elapsed else 0 }

  /** Exclusive time, where it is not negative. */
  ghost function Charged(k: Key): Visit -> int {
    (v: Visit) => if v.key == k && v.exclusive > 0 then v.exclusive else 0
  }

  /** A row has the number of events with its key, their elapsed time, and their exclusive time where it is
      positive; events without a path have no row. */
  lemma {:induction false} RowIs(history: seq<Visit>, k: Key)
    ensures k.path == "" ==> Aggregate(history, k) == PathRow(0, 0, 0)
    ensures k.path != "" ==> Aggregate(history, k) == PathRow(SumOver(history, Ones(k)), SumOver(history, Elapsed(k)),
                                                              SumOver(history, Charged(k)))
  {
    if history != [] {
      var before, v := history[..|history| - 1], history[|history| - 1];
      RowIs(before, k);
      ShareIs(v, k);
      assert Aggregate(history, k) == Plus(Aggregate(before, k), Share(v, k));
    }
  }

  lemma ShareIs(v: Visit, k: Key)
    ensures k.path == "" ==> Share(v, k) == PathRow(0, 0, 0)
    ensures k.path != "" ==> Share(v, k) == PathRow(Ones(k)(v), Elapsed(k)(v), Charged(k)(v))
  {
  }

  ghost function Seen(history: seq<Visit>): set<Key> {
    set i | 0 <= i < |history| && HasPath(history[i]) :: history[i].key
  }

  /** The table left by upserting every row of the batch. */
  ghost function Upserted(table: map<Key, PathRow>, batch: map<Key, PathRow>): map<Key, PathRow> {
    map k | k in table.Keys + batch.Keys :: Plus(Get(table, k), Get(batch, k))
  }

  const BATCH_LIMIT := 20000

  /** Table and batch together are exact. */
  ghost predicate Exact(table: map<Key, PathRow>, batch: map<Key, PathRow>, history: seq<Visit>) {
    table.Keys + batch.Keys == Seen(history) && RowsExact(table, batch, history)
  }

  ghost predicate RowsExact(table: map<Key, PathRow>, batch: map<Key, PathRow>, history: seq<Visit>) {
    forall k :: Plus(Get(table, k), Get(batch, k)) == Aggregate(history, k)
  }

  lemma PlusLaws(a: PathRow, b: PathRow, c: PathRow)
    ensures Plus(Plus(a, b), c) == Plus(a, Plus(b, c))
    ensures Plus(a, EMPTY) == a && Plus(EMPTY, a) == a
  {
  }

  lemma SeenAppend(history: seq<Visit>, v: Visit)
    ensures Seen(history + [v]) == Seen(history) + if HasPath(v) then {v.key} else {}
  {
    var t := history + [v];
    assert t[|history|] == v;
    forall i | 0 <= i < |history| && HasPath(history[i]) ensures history[i].key in Seen(t) {
      assert HasPath(t[i]);
    }
    if HasPath(v) {
      assert v.key in Seen(t);
    }
  }

  lemma AggregateAppend(history: seq<Visit>, v: Visit, k: Key)
    ensures Aggregate(history + [v], k) == Plus(Aggregate(history, k), Share(v, k))
  {
    assert (history + [v])[..|history|] == history;
  }

  /** The batch once v has been entered in it. */
  function Entered(batch: map<Key, PathRow>, v: Visit): map<Key, PathRow> {
    if HasPath(v) then batch[v.key := Plus(Get(batch, v.key), RowOf(v))] else batch
  }

  ghost function Share(v: Visit, k: Key): PathRow {
    if HasPath(v) && v.key == k then RowOf(v) else EMPTY
  }

  lemma EnteredRow(batch: map<Key, PathRow>, v: Visit, k: Key)
    ensures Get(Entered(batch, v), k) == Plus(Get(batch, k), Share(v, k))
  {
    if !(HasPath(v) && v.key == k) {
      PlusLaws(Get(batch, k), EMPTY, EMPTY);
    }
  }

  lemma RecordRow(table: map<Key, PathRow>, batch: map<Key, PathRow>, history: seq<Visit>, v: Visit, k: Key)
    requires Plus(Get(table, k), Get(batch, k)) == Aggregate(history, k)
    ensures Plus(Get(table, k), Get(Entered(batch, v), k)) == Aggregate(history + [v], k)
  {
    AggregateAppend(history, v, k);
    EnteredRow(batch, v, k);
    PlusLaws(Get(table, k), Get(batch, k), Share(v, k));
  }

  lemma RecordKeys(table: map<Key, PathRow>, batch: map<Key, PathRow>, history: seq<Visit>, v: Visit)
    requires table.Keys + batch.Keys == Seen(history)
    ensures table.Keys + Entered(batch, v).Keys == Seen(history + [v])
  {
    SeenAppend(history, v);
    assert Entered(batch, v).Keys == batch.Keys + if HasPath(v) then {v.key} else {};
  }

  lemma RowsStep(table: map<Key, PathRow>, batch: map<Key, PathRow>, history: seq<Visit>, v: Visit)
    requires RowsExact(table, batch, history)
    ensures RowsExact(table, Entered(batch, v), history + [v])
  {
    forall k ensures Plus(Get(table, k), Get(Entered(batch, v), k)) == Aggregate(history + [v], k) {
      assert Plus(Get(table, k), Get(batch, k)) == Aggregate(history, k);
      RecordRow(table, batch, history, v, k);
    }
  }

  lemma RecordStep(table: map<Key, PathRow>, batch: map<Key, PathRow>, history: seq<Visit>, v: Visit)
    requires Exact(table, batch, history)
    ensures Exact(table, Entered(batch, v), history + [v])
  {
    RecordKeys(table, batch, history, v);
    RowsStep(table, batch, history, v);
  }

  lemma UpsertedRow(table: map<Key, PathRow>, batch: map<Key, PathRow>, k: Key)
    ensures Get(Upserted(table, batch), k) == Plus(Get(table, k), Get(batch, k))
  {
  }

  lemma FlushKeepsExact(table: map<Key, PathRow>, batch: map<Key, PathRow>, history: seq<Visit>)
    requires Exact(table, batch, history)
    ensures Exact(Upserted(table, batch), map[], history)
  {
    forall k ensures Plus(Get(Upserted(table, batch), k), EMPTY) == Aggregate(history, k) {
      UpsertedRow(table, batch, k);
      PlusLaws(Get(Upserted(table, batch), k), EMPTY, EMPTY);
    }
  }

  lemma UpsertNextRow(table: map<Key, PathRow>, done: map<Key, PathRow>, k: Key, row: PathRow, d: Key)
    requires k !in done
    ensures Get(Upserted(table, done[k := row]), d)
         == if d == k then Plus(Get(Upserted(table, done), k), row) else Get(Upserted(table, done), d)
  {
    UpsertedRow(table, done, d);
    UpsertedRow(table, done[k := row], d);
    if d == k {
      PlusLaws(Get(table, d), row, EMPTY);
    }
  }

  /** One more row of the batch reaches the table. */
  lemma UpsertNext(table: map<Key, PathRow>, done: map<Key, PathRow>, k: Key, row: PathRow)
    requires k !in done
    ensures Upserted(table, done[k := row]) == Upserted(table, done)[k := Plus(Get(Upserted(table, done), k), row)]
  {
    var after, before := Upserted(table, done[k := row]), Upserted(table, done);
    var goal := before[k := Plus(Get(before, k), row)];
    assert after.Keys == goal.Keys;
    forall d | d in after ensures after[d] == goal[d] {
      UpsertNextRow(table, done, k, row, d);
      assert Get(after, d) == Get(goal, d);
    }
  }

  class PathTable {
    var table: map<Key, PathRow>
    var batch: map<Key, PathRow>
    ghost var history: seq<Visit>

    ghost predicate Valid()
      reads this
    {
      Exact(table, batch, history) && |batch| < BATCH_LIMIT
    }

    constructor ()
      ensures Valid() && history == []
    {
      table, batch, history := map[], map[], [];
    }

    /** `flush_paths`: every row of the batch is inserted, or added to the row already there. */
    method Flush()
      modifies `table, `batch
      ensures table == Upserted(old(table), old(batch)) && batch == map[]
    {
      var todo := batch.Keys;
      ghost var done: map<Key, PathRow> := map[];
      assert Upserted(table, done) == table by {
        forall k | k in table { UpsertedRow(table, done, k); }
        forall k | k in table ensures Upserted(table, done)[k] == table[k] { PlusLaws(table[k], EMPTY, EMPTY); }
      }
      while todo != {}
        invariant batch == old(batch) && todo <= batch.Keys
        invariant done == map k | k in batch && k !in todo :: batch[k]
        invariant table == Upserted(old(table), done)
        decreases todo
      {
        var k :| k in todo;
        UpsertNext(old(table), done, k, batch[k]);
        table := table[k := if k in table then Plus(table[k], batch[k]) else batch[k]];
        PlusLaws(batch[k], EMPTY, EMPTY);
        done := done[k := batch[k]];
        todo := todo - {k};
      }
      assert done == batch;
      batch := map[];
    }

    /** The row of the key is updated in the batch, or a new one is entered. */
    method Enter(v: Visit)
      modifies `batch
      ensures batch == Entered(old(batch), v)
    {
      if v.key.path != "" {
        var charged := if v.exclusive < 0 then 0 else v.exclusive;
        if v.key in batch {
          var row := batch[v.key];
          batch := batch[v.key := PathRow(row.calls + 1, row.ns + v.elapsed, row.selfNs + charged)];
        } else {
          batch := batch[v.key := PathRow(1, v.elapsed, charged)];
        }
      }
    }

    method Record(v: Visit)
      requires Valid()
      modifies this
      ensures Valid() && history == old(history) + [v] && |batch| < 20000
    {
      RecordStep(table, batch, history, v);
      FlushKeepsExact(table, Entered(batch, v), history + [v]);
      Enter(v);
      if |batch| >= BATCH_LIMIT {
        Flush();
      }
      history := history + [v];
    }

    /** After the last flush the table alone is the exact aggregate, wherever the flushes fell. */
    method Finish()
      requires Valid()
      modifies this
      ensures history == old(history) && batch == map[]
      ensures table == map k | k in Seen(history) :: Aggregate(history, k)
    {
      FlushKeepsExact(table, batch, history);
      Flush();
      forall k | k in table ensures table[k] == Aggregate(history, k) {
        PlusLaws(table[k], EMPTY, EMPTY);
        assert Plus(Get(table, k), Get(map[], k)) == Aggregate(history, k);
      }
    }
  }
}
