/** Span records of one trace file, and who their ancestors are.

    Every record carries its own id and its parent's; records are written when a span completes, so
    a parent follows its children. Nothing here assumes that a file is well formed: the parent of a
    record is the next later record carrying the parent's id, if there is one. `Forest` says when
    that is the one record with that id. */
module Spans {
  import opened Tallies

  datatype Option<+T> = None | Some(value: T)

  /** The fields `records` yields; `Text` is the type of the two decoded strings. */
  datatype Event<Text> = Event(id: int, parent: int, start: int, elapsed: int, a: int, b: int, c: int,
                               result: int, pid: int, tid: int, flags: int, op: Text, path: Text)

  type Span = Event<string>

  predicate IsNative(op: string) { "native." <= op }

  predicate IsVfs(op: string) { "vfs." <= op }

  ghost function Costs(s: seq<Span>): nat -> int {
    (i: nat) => if i < |s| then s[i].elapsed else 0
  }

  // ----- ancestors -----

  ghost predicate Links(s: seq<Span>, i: nat, j: nat)
    requires i < j < |s|
  {
    s[i].parent != 0 && s[i].parent == s[j].id
  }

  /** The span that completes i's parent: the first later record with the parent's id. */
  ghost function Next(s: seq<Span>, i: nat): (r: Option<nat>)
    requires i < |s|
    ensures r.Some? ==> i < r.value < |s| && Links(s, i, r.value)
    ensures r.Some? ==> forall k :: i < k < r.value ==> !Links(s, i, k)
    ensures r.None? ==> forall k :: i < k < |s| ==> !Links(s, i, k)
  {
    NextFrom(s, i, i + 1)
  }

  ghost function NextFrom(s: seq<Span>, i: nat, k: nat): (r: Option<nat>)
    requires i < k <= |s|
    ensures r.Some? ==> k <= r.value < |s| && Links(s, i, r.value)
    ensures r.Some? ==> forall j :: k <= j < r.value ==> !Links(s, i, j)
    ensures r.None? ==> forall j :: k <= j < |s| ==> !Links(s, i, j)
    decreases |s| - k
  {
    if k == |s| then None else if Links(s, i, k) then Some(k) else NextFrom(s, i, k + 1)
  }

  /** j is a proper ancestor of i. */
  ghost predicate Ancestor(s: seq<Span>, i: nat, j: nat)
    requires i < |s|
    decreases |s| - i
  {
    Next(s, i).Some? && (Next(s, i).value == j || Ancestor(s, Next(s, i).value, j))
  }

  lemma NextAppend(s: seq<Span>, e: Span, i: nat)
    requires i < |s|
    ensures Next(s + [e], i)
         == if Next(s, i).Some? then Next(s, i)
            else if s[i].parent != 0 && s[i].parent == e.id then Some(|s|) else None
  {
    var t := s + [e];
    assert forall k: nat | i < k < |s| :: Links(t, i, k) == Links(s, i, k);
    assert Links(t, i, |s|) <==> s[i].parent != 0 && s[i].parent == e.id;
    if Next(s, i).Some? {
      assert Links(t, i, Next(s, i).value);
    }
  }

  /** The topmost span completed so far on the way up from i. */
  ghost function Front(s: seq<Span>, i: nat): (f: nat)
    requires i < |s|
    ensures i <= f < |s|
    ensures forall k :: f < k < |s| ==> !Links(s, f, k)
    decreases |s|
  {
    if i == |s| - 1 then i else
      var f := Front(s[..|s| - 1], i);
      assert forall k :: f < k < |s| - 1 ==> Links(s, f, k) == Links(s[..|s| - 1], f, k);
      if Links(s, f, |s| - 1) then |s| - 1 else f
  }

  lemma FrontAppend(s: seq<Span>, e: Span, i: nat)
    requires i <= |s|
    ensures Front(s + [e], i)
         == if i == |s| || (s[Front(s, i)].parent != 0 && s[Front(s, i)].parent == e.id) then |s| else Front(s, i)
  {
    assert (s + [e])[..|s|] == s;
  }

  /** The records completed so far whose way up has stopped at a span waiting for parent p. */
  ghost function Below(s: seq<Span>, p: int): set<nat> {
    set i: nat | i < |s| && p != 0 && s[Front(s, i)].parent == p
  }

  lemma BelowAppend(s: seq<Span>, e: Span, p: int)
    ensures Below(s + [e], p)
         == (if p == e.id then {} else Below(s, p))
          + (if p != 0 && p == e.parent then Below(s, e.id) + {|s|} else {})
    ensures |s| !in Below(s, p)
    ensures p != e.id ==> Below(s, p) !! Below(s, e.id)
  {
    forall i: nat | i <= |s|
      ensures i in Below(s + [e], p)
         <==> i in (if p == e.id then {} else Below(s, p))
                 + (if p != 0 && p == e.parent then Below(s, e.id) + {|s|} else {})
    {
      FrontAppend(s, e, i);
    }
  }

  /** From below, `Front` climbs the same links from the start of the way. */
  lemma {:induction false} FrontClimbs(s: seq<Span>, i: nat)
    requires i < |s|
    ensures Front(s, i) == match Next(s, i) case None => i case Some(k) => Front(s, k)
    decreases |s|
  {
    if i < |s| - 1 {
      var t := s[..|s| - 1];
      assert forall j: nat, k: nat | j < k < |t| :: Links(s, j, k) == Links(t, j, k);
      FrontClimbs(t, i);
    }
  }

  /** Parents named by some record and not completed after it. */
  ghost function Awaited(s: seq<Span>): set<int> {
    set k: nat | k < |s| && s[k].parent != 0 && Next(s, k).None? :: s[k].parent
  }

  /** The parents that are never completed, over all files. */
  ghost function AwaitedOver(files: seq<seq<Span>>): nat {
    if files == [] then 0 else AwaitedOver(files[..|files| - 1]) + |Awaited(files[|files| - 1])|
  }


  lemma AwaitedIffBelow(s: seq<Span>, p: int)
    ensures p in Awaited(s) <==> Below(s, p) != {}
  {
    if p in Awaited(s) {
      var k: nat :| k < |s| && s[k].parent != 0 && Next(s, k).None? && s[k].parent == p;
      FrontClimbs(s, k);
      assert k in Below(s, p);
    }
    if Below(s, p) != {} {
      var i: nat :| i in Below(s, p);
      assert Next(s, Front(s, i)).None?;
    }
  }

  /** What the streaming tables see (`Front` reaching j exactly when j completes) is ancestry. */
  lemma {:induction false} FrontIsAncestor(s: seq<Span>, i: nat, j: nat)
    requires i < j < |s|
    ensures Front(s[..j + 1], i) == j <==> Ancestor(s, i, j)
    decreases |s| - i
  {
    var t := s[..j + 1];
    assert forall a: nat, b: nat | a < b < |t| :: Links(s, a, b) == Links(t, a, b);
    FrontClimbs(t, i);
    match Next(s, i) {
      case None =>
      case Some(k) =>
        if k <= j {
          assert Next(t, i) == Some(k);
          if k < j {
            FrontIsAncestor(s, k, j);
          }
        } else {
          AncestorsAreLater(s, k, j);
        }
    }
  }

  lemma {:induction false} AncestorsAreLater(s: seq<Span>, i: nat, j: nat)
    requires i < |s|
    ensures Ancestor(s, i, j) ==> i < j < |s|
    decreases |s| - i
  {
    if Next(s, i).Some? {
      AncestorsAreLater(s, Next(s, i).value, j);
    }
  }

  lemma AncestorStable(s: seq<Span>, e: Span, i: nat, j: nat)
    requires i < j < |s|
    ensures Ancestor(s + [e], i, j) == Ancestor(s, i, j)
  {
    FrontIsAncestor(s, i, j);
    FrontIsAncestor(s + [e], i, j);
    assert (s + [e])[..j + 1] == s[..j + 1];
  }

  /** The ancestors of what waits for e are complete exactly when e arrives. */
  lemma BelowIsAncestry(s: seq<Span>, e: Span)
    ensures forall i: nat | i < |s| :: Ancestor(s + [e], i, |s|) <==> i in Below(s, e.id)
  {
    forall i: nat | i < |s| ensures Ancestor(s + [e], i, |s|) <==> i in Below(s, e.id) {
      FrontIsAncestor(s + [e], i, |s|);
      assert (s + [e])[..|s| + 1] == s + [e];
      FrontAppend(s, e, i);
    }
  }

  // ----- tallies of a growing file -----

  lemma Grown(s: seq<Span>, e: Span, before: set<nat>, more: set<nat>, after: set<nat>)
    requires forall i | i in before :: i < |s|
    requires before !! more && after == before + more
    ensures TallyOf(after, Costs(s + [e])) == Plus(TallyOf(before, Costs(s)), TallyOf(more, Costs(s + [e])))
  {
    TallyUnion(before, more, Costs(s + [e]));
    TotalSame(before, Costs(s), Costs(s + [e]));
  }

  lemma GrownByOne(s: seq<Span>, e: Span, before: set<nat>, here: bool, after: set<nat>)
    requires forall i | i in before :: i < |s|
    requires after == before + (if here then {|s|} else {})
    ensures TallyOf(after, Costs(s + [e]))
         == Plus(TallyOf(before, Costs(s)), if here then Tally(1, e.elapsed) else NOTHING)
  {
    Grown(s, e, before, if here then {|s|} else {}, after);
    TallyOne<nat>(|s|, Costs(s + [e]));
  }

  // ----- well-formed files -----

  /** Ids are distinct and nonzero and no record follows its parent's. A parent may be missing. */
  ghost predicate Forest(s: seq<Span>) {
    && (forall i | 0 <= i < |s| :: s[i].id != 0)
    && (forall i, j | 0 <= i < j < |s| :: s[i].id != s[j].id)
    && (forall i, j | 0 <= j <= i < |s| :: s[i].parent != s[j].id)
  }

  /** In a forest the parent is the record with the parent's id, wherever it is. */
  lemma ForestParent(s: seq<Span>, i: nat, j: nat)
    requires Forest(s) && i < |s| && j < |s|
    ensures Next(s, i) == Some(j) <==> s[i].parent == s[j].id
  {
    if s[i].parent == s[j].id {
      assert Links(s, i, j);
    }
  }
}
