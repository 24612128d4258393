/** The bounded list of slow waits: a heap of at most sixty scopes whose least is the first to go. */
module SlowWaits {
  import Collections

  /** What a scope is ranked by: its wait, the number of its file, and its id in that file. */
  datatype Scope = Scope(wait: int, number: int, id: int)

  /** Python's order on the first three entries of the heap items. */
  predicate Less(a: Scope, b: Scope) {
    || a.wait < b.wait
    || (a.wait == b.wait && a.number < b.number)
    || (a.wait == b.wait && a.number == b.number && a.id < b.id)
  }

  lemma LessIsTotal(a: Scope, b: Scope)
    ensures a == b || Less(a, b) || Less(b, a)
  {
    assert a == Scope(a.wait, a.number, a.id) && b == Scope(b.wait, b.number, b.id);
  }

  const LIMIT := 60
  const THRESHOLD := 10_000_000

  predicate Qualifies(s: Scope) { s.wait > THRESHOLD }

  ghost function Qualified(offered: set<Scope>): set<Scope> { set s | s in offered && Qualifies(s) }

  ghost predicate IsLeast(s: Scope, all: set<Scope>) {
    s in all && forall t | t in all :: t == s || Less(s, t)
  }

  /** kept holds the LIMIT greatest of all, or all of them when there are fewer. */
  ghost predicate Greatest(kept: set<Scope>, all: set<Scope>) {
    && kept <= all
    && |kept| == (if |all| < LIMIT then |all| else LIMIT)
    && forall a, b | a in kept && b in all - kept :: Less(b, a)
  }

  lemma SubsetOfSameSize(a: set<Scope>, b: set<Scope>)
    requires a <= b && |a| == |b|
    ensures a == b
  {
    assert b == a + (b - a);
  }

  lemma Outranks(kept: set<Scope>, all: set<Scope>, x: Scope, y: Scope)
    requires Greatest(kept, all) && x in kept && y in all && y !in kept
    ensures Less(y, x)
  {
    assert y in all - kept;
  }

  /** The greatest scopes do not depend on how they were found: two such sets are the same. */
  lemma GreatestIsUnique(a: set<Scope>, b: set<Scope>, all: set<Scope>)
    requires Greatest(a, all) && Greatest(b, all)
    ensures a == b
  {
    if a - b != {} {
      var x := Collections.Pick(a - b);
      if b - a == {} {
        assert b <= a by { forall s | s in b ensures s in a { assert s !in b - a; } }
        SubsetOfSameSize(b, a);
      } else {
        var y := Collections.Pick(b - a);
        Outranks(a, all, x, y);
        Outranks(b, all, y, x);
        assert false;
      }
    } else {
      assert a <= b by { forall s | s in a ensures s in b { assert s !in a - b; } }
      SubsetOfSameSize(a, b);
    }
  }

  /** Room left: everything offered so far is kept. */
  lemma Push(kept: set<Scope>, all: set<Scope>, s: Scope)
    requires Greatest(kept, all) && |kept| < LIMIT && s !in all
    ensures Greatest(kept + {s}, all + {s})
  {
    SubsetOfSameSize(kept, all);
  }

  /** Full, and the new scope ranks above the least one: it takes its place. */
  lemma Replace(kept: set<Scope>, all: set<Scope>, s: Scope, least: Scope)
    requires Greatest(kept, all) && |kept| == LIMIT && s !in all
    requires IsLeast(least, kept) && Less(least, s)
    ensures Greatest(kept - {least} + {s}, all + {s})
  {
    var after := kept - {least} + {s};
    assert |after| == LIMIT;
    forall a, b | a in after && b in all + {s} - after ensures Less(b, a) {
      if b == least {
        assert a == s || Less(least, a);
      } else {
        assert Less(b, least);
      }
    }
  }

  /** Full, and the new scope does not rank above the least one: nothing changes. */
  lemma Refuse(kept: set<Scope>, all: set<Scope>, s: Scope, least: Scope)
    requires Greatest(kept, all) && |kept| == LIMIT && s !in all
    requires IsLeast(least, kept) && !Less(least, s)
    ensures Greatest(kept, all + {s})
  {
    assert s != least;
    forall a, b | a in kept && b in all + {s} - kept ensures Less(b, a) {
      if b == s {
        LessIsTotal(s, least);
        assert a == least || Less(least, a);
      }
    }
  }

  /** The root of the heap. */
  method Least(all: set<Scope>) returns (s: Scope)
    requires all != {}
    ensures IsLeast(s, all)
  {
    s :| s in all;
    var todo := all - {s};
    while todo != {}
      invariant s in all && todo <= all
      invariant forall t | t in all && t !in todo :: t == s || Less(s, t)
      decreases todo
    {
      var t :| t in todo;
      LessIsTotal(s, t);
      if Less(t, s) {
        s := t;
      }
      todo := todo - {t};
    }
  }

  lemma QualifiedAdd(offered: set<Scope>, s: Scope)
    requires s !in offered
    ensures Qualified(offered + {s}) == if Qualifies(s) then Qualified(offered) + {s} else Qualified(offered)
    ensures s !in Qualified(offered)
  {
  }

  /** Entering a qualifying scope: pushed while there is room, then only in place of a lesser one. */
  method Keep(kept: set<Scope>, s: Scope, ghost all: set<Scope>) returns (after: set<Scope>)
    requires Greatest(kept, all) && s !in all
    ensures Greatest(after, all + {s})
  {
    if |kept| < LIMIT {
      Push(kept, all, s);
      after := kept + {s};
    } else {
      var least := Least(kept);
      if Less(least, s) {
        Replace(kept, all, s, least);
        after := kept - {least} + {s};
      } else {
        Refuse(kept, all, s, least);
        after := kept;
      }
    }
  }

  /** What is kept, in integers: sixty of the offered scopes that waited for more than ten milliseconds, or all
      when there are fewer. Whatever is not kept waited less than all that is kept, or as long in an earlier
      file, or as long in the same file under a smaller id. */
  lemma KeptAreLongest(slow: set<Scope>, offered: set<Scope>)
    requires Greatest(slow, Qualified(offered))
    ensures var long := set s | s in offered && s.wait > 10_000_000;
            slow <= long && |slow| == if |long| < 60 then |long| else 60
    ensures forall a, b | a in slow && b in offered && b.wait > 10_000_000 && b !in slow ::
              && b.wait <= a.wait
              && (b.wait == a.wait ==> b.number <= a.number)
              && (b.wait == a.wait && b.number == a.number ==> b.id < a.id)
  {
    assert Qualified(offered) == set s | s in offered && s.wait > 10_000_000;
    forall a, b | a in slow && b in offered && b.wait > 10_000_000 && b !in slow ensures Less(b, a) {
      assert b in Qualified(offered) - slow;
    }
  }

  class SlowList {
    var slow: set<Scope>
    ghost var offered: set<Scope>

    ghost predicate Valid()
      reads this
    {
      Greatest(slow, Qualified(offered))
    }

    constructor ()
      ensures Valid() && offered == {}
    {
      slow, offered := {}, {};
    }

    /** One scope, whose key has not been seen before: equal keys would make the heap compare payloads. */
    method Offer(s: Scope)
      requires Valid() && s !in offered
      modifies this
      ensures Valid() && offered == old(offered) + {s}
      ensures var long := set b | b in offered && b.wait > 10_000_000;
              slow <= long && |slow| == if |long| < 60 then |long| else 60
      ensures forall a, b | a in slow && b in offered && b.wait > 10_000_000 && b !in slow ::
                && b.wait <= a.wait
                && (b.wait == a.wait ==> b.number <= a.number)
                && (b.wait == a.wait && b.number == a.number ==> b.id < a.id)
    {
      QualifiedAdd(offered, s);
      if s.wait > THRESHOLD {
        slow := Keep(slow, s, Qualified(offered));
      }
      offered := offered + {s};
      KeptAreLongest(slow, offered);
    }

    /** The reported list: the kept scopes from the greatest down. */
    method Report() returns (list: seq<Scope>)
      requires Valid()
      ensures Descending(list) && Elements(list) == slow && |list| == |slow|
      ensures forall i, j | 0 <= i < j < |list| ::
                && list[j].wait <= list[i].wait
                && (list[j].wait == list[i].wait ==> list[j].number <= list[i].number)
                && (list[j].wait == list[i].wait && list[j].number == list[i].number ==> list[j].id < list[i].id)
    {
      list := [];
      var todo := slow;
      while todo != {}
        invariant Listed(list, slow, todo)
        decreases todo
      {
        var least := Least(todo);
        ListNext(list, slow, todo, least);
        list := [least] + list;
        todo := todo - {least};
      }
      forall i, j | 0 <= i < j < |list| ensures Less(list[j], list[i]) {}
    }
  }

  ghost function Elements(list: seq<Scope>): set<Scope> { set s | s in list }

  ghost predicate Descending(list: seq<Scope>) { forall i, j | 0 <= i < j < |list| :: Less(list[j], list[i]) }

  /** list holds what has been taken out of the heap so far, all of it below what is still there. */
  ghost predicate Listed(list: seq<Scope>, all: set<Scope>, todo: set<Scope>) {
    && Descending(list) && todo <= all && Elements(list) == all - todo && |list| == |all| - |todo|
    && forall s, t | s in list && t in todo :: Less(s, t)
  }

  lemma ListNext(list: seq<Scope>, all: set<Scope>, todo: set<Scope>, least: Scope)
    requires Listed(list, all, todo) && IsLeast(least, todo)
    ensures Listed([least] + list, all, todo - {least})
  {
    assert Elements([least] + list) == {least} + Elements(list);
  }
}
