/** The `[count, elapsed]` rows every trace table is made of, and sums over sets of records.

    A table is specified by naming, for each key, the set of records it stands for: the row must
    then be the `TallyOf` that set. */
module Tallies {

  datatype Tally = Tally(count: int, elapsed: int)

  const NOTHING := Tally(0, 0)

  function Plus(a: Tally, b: Tally): Tally {
    Tally(a.count + b.count, a.elapsed + b.elapsed)
  }

  lemma PlusSwap(a: Tally, b: Tally, c: Tally, d: Tally)
    ensures Plus(Plus(a, b), Plus(c, d)) == Plus(Plus(a, c), Plus(b, d))
    ensures Plus(Plus(a, b), c) == Plus(a, Plus(b, c)) == Plus(Plus(a, c), b)
    ensures Plus(a, NOTHING) == a
  {
  }

  lemma PlusNothing(a: Tally)
    ensures Plus(a, NOTHING) == a
  {
  }

  function Get<K>(table: map<K, Tally>, key: K): Tally {
    if key in table then table[key] else NOTHING
  }

  /** One `add(table, key, count, elapsed)`. */
  function Add<K>(table: map<K, Tally>, key: K, value: Tally): map<K, Tally> {
    table[key := Plus(Get(table, key), value)]
  }

  lemma AddRowIf<K>(table: map<K, Tally>, here: bool, key: K, value: Tally, k: K)
    ensures Get(if here then Add(table, key, value) else table, k)
         == Plus(Get(table, k), if here && k == key then value else NOTHING)
  {
    if here {
      AddRow(table, key, value, k);
    } else {
      PlusSwap(Get(table, k), NOTHING, NOTHING, NOTHING);
    }
  }

  /** A row with no events has no time either. */
  ghost predicate Sound(a: Tally) {
    a.count >= 0 && (a.count == 0 ==> a == NOTHING)
  }

  lemma PlusSound(a: Tally, b: Tally)
    requires Sound(a) && Sound(b)
    ensures Sound(Plus(a, b)) && (Plus(a, b).count == 0 <==> a.count == 0 && b.count == 0)
  {
  }

  lemma PlusZero(a: Tally, b: Tally)
    requires b.count == 0 ==> b == NOTHING
    ensures a == Plus(a, b) <==> b.count == 0
  {
  }

  lemma AddRow<K>(table: map<K, Tally>, key: K, value: Tally, k: K)
    ensures Get(Add(table, key, value), k) == Plus(Get(table, k), if k == key then value else NOTHING)
  {
  }

  /** No row of the table is a zero left behind by a lookup. */
  ghost predicate Live<K(!new)>(table: map<K, Tally>) {
    forall k :: k in table ==> table[k].count > 0
  }

  /** The table that `combine(target, source)` leaves in `target`. */
  ghost function Combined<K>(target: map<K, Tally>, source: map<K, Tally>): map<K, Tally> {
    map k | k in target.Keys + source.Keys :: Plus(Get(target, k), Get(source, k))
  }

  lemma CombinedRows<K>(target: map<K, Tally>, source: map<K, Tally>, k: K)
    ensures Get(Combined(target, source), k) == Plus(Get(target, k), Get(source, k))
  {
  }

  method Combine<K>(target: map<K, Tally>, source: map<K, Tally>) returns (result: map<K, Tally>)
    ensures result == Combined(target, source)
  {
    result := target;
    var todo := source.Keys;
    while todo != {}
      invariant todo <= source.Keys
      invariant result.Keys == target.Keys + (source.Keys - todo)
      invariant forall k | k in result :: result[k] == if k in todo then Get(target, k) else Combined(target, source)[k]
      decreases todo
    {
      var key :| key in todo;
      if key in result {
        result := result[key := Tally(result[key].count + source[key].count,
                                      result[key].elapsed + source[key].elapsed)];
      } else {
        result := result[key := source[key]];
      }
      todo := todo - {key};
    }
  }

  // ----- adding a whole table under one prefix -----

  /** The table left by `for key, value in entries: add(table, (prefix, key), *value)`. */
  ghost function WithEntries(table: map<(string, string), Tally>, prefix: string, entries: map<string, Tally>)
    : map<(string, string), Tally>
  {
    map k | k in table.Keys + (set key | key in entries :: (prefix, key)) ::
      Plus(Get(table, k), if k.0 == prefix then Get(entries, k.1) else NOTHING)
  }

  lemma EntryRows(table: map<(string, string), Tally>, prefix: string, entries: map<string, Tally>, k: (string, string))
    ensures Get(WithEntries(table, prefix, entries), k)
         == Plus(Get(table, k), if k.0 == prefix then Get(entries, k.1) else NOTHING)
  {
    assert k == (k.0, k.1);
    if k.0 == prefix && k.1 in entries {
      assert k in WithEntries(table, prefix, entries);
    }
  }

  lemma EntryRowsIf(table: map<(string, string), Tally>, here: bool, prefix: string,
                     entries: map<string, Tally>, k: (string, string))
    ensures Get(if here then WithEntries(table, prefix, entries) else table, k)
         == Plus(Get(table, k), if here && k.0 == prefix then Get(entries, k.1) else NOTHING)
  {
    if here {
      EntryRows(table, prefix, entries, k);
    } else {
      PlusSwap(Get(table, k), NOTHING, NOTHING, NOTHING);
    }
  }

  lemma OneMoreRow(table: map<(string, string), Tally>, prefix: string, entries: map<string, Tally>,
                    key: string, value: Tally, k: (string, string))
    requires key !in entries
    ensures Get(WithEntries(table, prefix, entries[key := value]), k)
         == Get(Add(WithEntries(table, prefix, entries), (prefix, key), value), k)
  {
    EntryRows(table, prefix, entries[key := value], k);
    EntryRows(table, prefix, entries, k);
    AddRow(WithEntries(table, prefix, entries), (prefix, key), value, k);
    if k == (prefix, key) {
      PlusNothing(Get(table, k));
    } else {
      PlusNothing(Get(WithEntries(table, prefix, entries), k));
      assert k.0 == prefix ==> Get(entries[key := value], k.1) == Get(entries, k.1);
    }
  }

  lemma OneMoreEntry(table: map<(string, string), Tally>, prefix: string, entries: map<string, Tally>,
                      key: string, value: Tally)
    requires key !in entries
    ensures WithEntries(table, prefix, entries[key := value])
            == Add(WithEntries(table, prefix, entries), (prefix, key), value)
  {
    var after, goal := WithEntries(table, prefix, entries[key := value]),
        Add(WithEntries(table, prefix, entries), (prefix, key), value);
    assert (set k | k in entries[key := value] :: (prefix, k))
           == (set k | k in entries :: (prefix, k)) + {(prefix, key)};
    assert after.Keys == goal.Keys;
    forall k | k in after ensures after[k] == goal[k] {
      OneMoreRow(table, prefix, entries, key, value, k);
      assert Get(after, k) == Get(goal, k);
    }
  }

  method AddEntries(table: map<(string, string), Tally>, prefix: string, entries: map<string, Tally>)
    returns (result: map<(string, string), Tally>)
    ensures result == WithEntries(table, prefix, entries)
  {
    result := table;
    var todo := entries.Keys;
    ghost var done: map<string, Tally> := map[];
    assert WithEntries(table, prefix, done) == table;
    while todo != {}
      invariant todo <= entries.Keys
      invariant done == map key | key in entries && key !in todo :: entries[key]
      invariant result == WithEntries(table, prefix, done)
      decreases todo
    {
      var key :| key in todo;
      OneMoreEntry(table, prefix, done, key, entries[key]);
      result := Add(result, (prefix, key), entries[key]);
      done := done[key := entries[key]];
      todo := todo - {key};
    }
    assert done == entries;
  }

  // ----- sums over finite sets -----

  ghost function Total<T>(items: set<T>, cost: T -> int): int {
    if items == {} then 0 else
      var x :| x in items;
      cost(x) + Total(items - {x}, cost)
  }

  ghost function TallyOf<T>(items: set<T>, cost: T -> int): Tally {
    Tally(|items|, Total(items, cost))
  }

  lemma {:induction false} TotalRemove<T>(items: set<T>, x: T, cost: T -> int)
    requires x in items
    ensures Total(items, cost) == cost(x) + Total(items - {x}, cost)
    decreases items
  {
    var y :| y in items && Total(items, cost) == cost(y) + Total(items - {y}, cost);
    if x != y {
      TotalRemove(items - {y}, x, cost);
      TotalRemove(items - {x}, y, cost);
      assert items - {y} - {x} == items - {x} - {y};
    }
  }

  lemma {:induction false} TotalUnion<T>(a: set<T>, b: set<T>, cost: T -> int)
    requires a !! b
    ensures Total(a + b, cost) == Total(a, cost) + Total(b, cost)
    decreases a
  {
    if a == {} {
      assert a + b == b;
    } else {
      var x :| x in a;
      TotalRemove(a, x, cost);
      TotalRemove(a + b, x, cost);
      assert a + b - {x} == (a - {x}) + b;
      TotalUnion(a - {x}, b, cost);
    }
  }

  lemma {:induction false} TotalSame<T>(items: set<T>, f: T -> int, g: T -> int)
    requires forall x :: x in items ==> f(x) == g(x)
    ensures Total(items, f) == Total(items, g)
    decreases items
  {
    if items != {} {
      var x :| x in items;
      TotalRemove(items, x, f);
      TotalRemove(items, x, g);
      TotalSame(items - {x}, f, g);
    }
  }

  lemma TallyUnion<T>(a: set<T>, b: set<T>, cost: T -> int)
    requires a !! b
    ensures TallyOf(a + b, cost) == Plus(TallyOf(a, cost), TallyOf(b, cost))
  {
    TotalUnion(a, b, cost);
  }

  lemma TallyNone<T>(cost: T -> int)
    ensures TallyOf({}, cost) == NOTHING
  {
  }

  lemma TallyOne<T>(x: T, cost: T -> int)
    ensures TallyOf({x}, cost) == Tally(1, cost(x))
  {
    TotalRemove({x}, x, cost);
    assert {x} - {x} == {};
  }

  lemma TallyEmpty<T>(items: set<T>, cost: T -> int)
    ensures Sound(TallyOf(items, cost))
    ensures TallyOf(items, cost).count == 0 <==> items == {}
  {
  }

  // ----- sums over the rows of a table -----

  ghost function Counts<K>(value: K -> Tally): K -> int { k => value(k).count }

  ghost function Times<K>(value: K -> Tally): K -> int { k => value(k).elapsed }

  /** The rows under the keys, added up. */
  ghost function SumOver<K>(keys: set<K>, value: K -> Tally): Tally {
    Tally(Total(keys, Counts(value)), Total(keys, Times(value)))
  }

  lemma SumOverWith<K>(keys: set<K>, x: K, value: K -> Tally)
    requires x !in keys
    ensures SumOver(keys + {x}, value) == Plus(SumOver(keys, value), value(x))
  {
    TotalRemove(keys + {x}, x, Counts(value));
    TotalRemove(keys + {x}, x, Times(value));
    assert keys + {x} - {x} == keys;
  }

  ghost function InGroups<K(!new)>(all: set<nat>, group: nat -> K, keys: set<K>): set<nat> {
    set i | i in all && group(i) in keys
  }

  /** When every row is the tally of its group, the sum is the tally of all the groups. */
  lemma {:induction false} GroupsSum<K(!new)>(keys: set<K>, all: set<nat>, group: nat -> K, cost: nat -> int,
      value: K -> Tally)
    requires forall k | k in keys :: value(k) == TallyOf(InGroups(all, group, {k}), cost)
    ensures SumOver(keys, value) == TallyOf(InGroups(all, group, keys), cost)
    decreases keys
  {
    if keys == {} {
      assert InGroups(all, group, keys) == {};
    } else {
      var k :| k in keys;
      var rest := keys - {k};
      assert keys == rest + {k};
      GroupsSum(rest, all, group, cost, value);
      SumOverWith(rest, k, value);
      OneMoreGroup(rest, k, all, group, cost);
    }
  }

  lemma OneMoreGroup<K(!new)>(rest: set<K>, k: K, all: set<nat>, group: nat -> K, cost: nat -> int)
    requires k !in rest
    ensures TallyOf(InGroups(all, group, rest + {k}), cost)
         == Plus(TallyOf(InGroups(all, group, rest), cost), TallyOf(InGroups(all, group, {k}), cost))
  {
    assert InGroups(all, group, rest + {k}) == InGroups(all, group, rest) + InGroups(all, group, {k});
    TallyUnion(InGroups(all, group, rest), InGroups(all, group, {k}), cost);
  }

  // ----- sums over the parts of a run -----

  /** The tally f of every part, added up. */
  ghost function Across<S>(parts: seq<S>, f: S -> Tally): Tally {
    if parts == [] then NOTHING else Plus(Across(parts[..|parts| - 1], f), f(parts[|parts| - 1]))
  }

  lemma AcrossAppend<S>(parts: seq<S>, s: S, f: S -> Tally)
    ensures Across(parts + [s], f) == Plus(Across(parts, f), f(s))
  {
    assert (parts + [s])[..|parts|] == parts;
  }

  /** The sum over the run changes as the last part's tally does. */
  lemma AcrossStep<S>(parts: seq<S>, s: S, t: S, f: S -> Tally, more: Tally)
    requires f(t) == Plus(f(s), more)
    ensures Across(parts + [t], f) == Plus(Across(parts + [s], f), more)
  {
    AcrossAppend(parts, s, f);
    AcrossAppend(parts, t, f);
    PlusSwap(Across(parts, f), f(s), more, NOTHING);
  }

  lemma {:induction false} AcrossSplit<S>(parts: seq<S>, whole: S -> Tally, a: S -> Tally, b: S -> Tally)
    requires forall s | s in parts :: whole(s) == Plus(a(s), b(s))
    ensures Across(parts, whole) == Plus(Across(parts, a), Across(parts, b))
  {
    if parts != [] {
      var rest, s := parts[..|parts| - 1], parts[|parts| - 1];
      AcrossSplit(rest, whole, a, b);
      PlusSwap(Across(rest, a), Across(rest, b), a(s), b(s));
    }
  }

  lemma {:induction false} AcrossSame<S>(parts: seq<S>, a: S -> Tally, b: S -> Tally)
    requires forall s | s in parts :: a(s) == b(s)
    ensures Across(parts, a) == Across(parts, b)
  {
    if parts != [] {
      AcrossSame(parts[..|parts| - 1], a, b);
    }
  }

  lemma {:induction false} AcrossSound<S>(parts: seq<S>, f: S -> Tally)
    requires forall s | s in parts :: Sound(f(s))
    ensures Sound(Across(parts, f))
  {
    if parts != [] {
      var rest, s := parts[..|parts| - 1], parts[|parts| - 1];
      assert s in parts && forall p | p in rest :: p in parts;
      AcrossSound(rest, f);
      PlusSound(Across(rest, f), f(s));
    }
  }

  lemma {:induction false} AcrossPositive<S>(parts: seq<S>, f: S -> Tally, s: S)
    requires forall p | p in parts :: Sound(f(p))
    requires s in parts && f(s).count > 0
    ensures Across(parts, f).count > 0
  {
    var rest, last := parts[..|parts| - 1], parts[|parts| - 1];
    assert last in parts && forall p | p in rest :: p in parts;
    AcrossSound(rest, f);
    if f(last).count == 0 {
      AcrossPositive(rest, f, s);
    }
  }

  lemma {:induction false} AcrossNothing<S>(parts: seq<S>, f: S -> Tally)
    requires forall s | s in parts :: f(s) == NOTHING
    ensures Across(parts, f) == NOTHING
  {
    if parts != [] {
      var rest, s := parts[..|parts| - 1], parts[|parts| - 1];
      assert s in parts && forall p | p in rest :: p in parts;
      AcrossNothing(rest, f);
      PlusSwap(NOTHING, NOTHING, NOTHING, NOTHING);
    }
  }
}
