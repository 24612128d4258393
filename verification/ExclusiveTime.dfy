/** Exclusive time in the first summary: the per-file loop of `analyze`.

    Each span is charged its elapsed time less that of the spans it directly contains, which have
    completed before it. `children` carries the elapsed time still owed to a parent. */
module ExclusiveTime {
  import opened Tallies
  import opened Spans

  // ----- what exclusive time means -----

  /** The spans that j directly contains. */
  ghost function ChildrenOf(s: seq<Span>, j: nat): set<nat> {
    set i: nat | i < j && i < |s| && Next(s, i) == Some(j)
  }

  ghost function Exclusive(s: seq<Span>, j: nat): int
    requires j < |s|
  {
    s[j].elapsed - Total(ChildrenOf(s, j), Costs(s))
  }

  function Clamp(x: int): int { if x < 0 then 0 else x }

  ghost function Sum(n: nat, f: nat -> int): int {
    if n == 0 then 0 else Sum(n - 1, f) + f(n - 1)
  }

  lemma {:induction false} SumSame(n: nat, f: nat -> int, g: nat -> int)
    requires forall i: nat | i < n :: f(i) == g(i)
    ensures Sum(n, f) == Sum(n, g)
  {
    if n > 0 {
      SumSame(n - 1, f, g);
    }
  }

  /** What each record would add to the summary, without and with clamping. */
  ghost function RawCosts(s: seq<Span>): nat -> int {
    (i: nat) => if i < |s| then Exclusive(s, i) else 0
  }

  ghost function ClampedCosts(s: seq<Span>): nat -> int {
    (i: nat) => if i < |s| then Clamp(Exclusive(s, i)) else 0
  }

  ghost function RawSum(s: seq<Span>): int { Sum(|s|, RawCosts(s)) }

  ghost function ClampedSum(s: seq<Span>): int { Sum(|s|, ClampedCosts(s)) }

  ghost function Negative(s: seq<Span>): set<nat> { set i: nat | i < |s| && Exclusive(s, i) < 0 }

  ghost function Roots(s: seq<Span>): set<nat> { set i: nat | i < |s| && s[i].parent == 0 }

  /** Spans whose parent never completes. */
  ghost function Orphans(s: seq<Span>): set<nat> {
    set i: nat | i < |s| && s[i].parent != 0 && Next(s, i).None?
  }

  ghost function OrphansOf(s: seq<Span>, p: int): set<nat> {
    set i: nat | i in Orphans(s) && s[i].parent == p
  }

  // ----- one more record -----

  lemma OrphansAppend(s: seq<Span>, e: Span, p: int)
    ensures OrphansOf(s + [e], p)
         == (if p == e.id then {} else OrphansOf(s, p)) + if p != 0 && p == e.parent then {|s|} else {}
    ensures ChildrenOf(s + [e], |s|) == OrphansOf(s, e.id)
    ensures forall j: nat | j < |s| :: ChildrenOf(s + [e], j) == ChildrenOf(s, j)
  {
    forall i: nat | i < |s| { NextAppend(s, e, i); }
    assert Next(s + [e], |s|).None?;
  }

  lemma ExclusiveAppend(s: seq<Span>, e: Span)
    ensures Exclusive(s + [e], |s|) == e.elapsed - Total(OrphansOf(s, e.id), Costs(s))
    ensures forall j: nat | j < |s| :: Exclusive(s + [e], j) == Exclusive(s, j)
  {
    OrphansAppend(s, e, 0);
    TotalSame(OrphansOf(s, e.id), Costs(s), Costs(s + [e]));
    forall j: nat | j < |s| ensures Exclusive(s + [e], j) == Exclusive(s, j) {
      TotalSame(ChildrenOf(s, j), Costs(s), Costs(s + [e]));
    }
  }

  lemma SumAppend(before: set<nat>, n: nat, f: nat -> int, g: nat -> int)
    requires n !in before && forall i | i in before :: f(i) == g(i)
    ensures Total(before + {n}, g) == Total(before, f) + g(n)
  {
    TotalSame(before, f, g);
    TotalRemove(before + {n}, n, g);
    assert before + {n} - {n} == before;
  }

  lemma NegativeAppend(s: seq<Span>, e: Span)
    ensures |Negative(s + [e])| == |Negative(s)| + if Exclusive(s + [e], |s|) < 0 then 1 else 0
  {
    var before, after := Negative(s), Negative(s + [e]);
    assert after - {|s|} == before by { ExclusiveAppend(s, e); }
    assert |s| in after <==> Exclusive(s + [e], |s|) < 0;
    assert |after - {|s|}| == |after| - if |s| in after then 1 else 0;
  }

  lemma RecordsAppend(s: seq<Span>, e: Span)
    ensures RawSum(s + [e]) == RawSum(s) + Exclusive(s + [e], |s|)
    ensures ClampedSum(s + [e]) == ClampedSum(s) + Clamp(Exclusive(s + [e], |s|))
  {
    var t := s + [e];
    assert forall j: nat | j < |s| :: RawCosts(s)(j) == RawCosts(t)(j) && ClampedCosts(s)(j) == ClampedCosts(t)(j) by {
      ExclusiveAppend(s, e);
    }
    SumSame(|s|, RawCosts(s), RawCosts(t));
    SumSame(|s|, ClampedCosts(s), ClampedCosts(t));
  }

  lemma OrphansSplit(s: seq<Span>, p: int)
    ensures Total(Orphans(s), Costs(s))
            == Total(OrphansOf(s, p), Costs(s)) + Total(Orphans(s) - OrphansOf(s, p), Costs(s))
  {
    assert Orphans(s) == OrphansOf(s, p) + (Orphans(s) - OrphansOf(s, p));
    TotalUnion(OrphansOf(s, p), Orphans(s) - OrphansOf(s, p), Costs(s));
  }

  lemma RootsAppend(s: seq<Span>, e: Span)
    ensures Total(Roots(s + [e]), Costs(s + [e])) == Total(Roots(s), Costs(s)) + if e.parent == 0 then e.elapsed else 0
  {
    assert Roots(s + [e]) == Roots(s) + if e.parent == 0 then {|s|} else {};
    GrownByOne(s, e, Roots(s), e.parent == 0, Roots(s + [e]));
  }

  lemma BalanceAppend(s: seq<Span>, e: Span)
    ensures Total(Orphans(s + [e]), Costs(s + [e]))
         == Total(Orphans(s), Costs(s)) - Total(OrphansOf(s, e.id), Costs(s)) + if e.parent != 0 then e.elapsed else 0
  {
    var t, rest: set<nat> := s + [e], Orphans(s) - OrphansOf(s, e.id);
    forall i: nat | i < |s| { NextAppend(s, e, i); }
    assert Next(t, |s|).None?;
    assert Orphans(t) == rest + if e.parent != 0 then {|s|} else {};
    OrphansSplit(s, e.id);
    GrownByOne(s, e, rest, e.parent != 0, Orphans(t));
  }

  /** For every stream: nothing but the time of roots and of orphans is left after subtracting. */
  lemma {:induction false} Conservation(s: seq<Span>)
    ensures RawSum(s) == Total(Roots(s), Costs(s)) + Total(Orphans(s), Costs(s))
    decreases |s|
  {
    if s == [] {
      assert Roots(s) == {} && Orphans(s) == {};
    } else {
      var before, e := s[..|s| - 1], s[|s| - 1];
      assert s == before + [e];
      Conservation(before);
      RecordsAppend(before, e);
      ExclusiveAppend(before, e);
      BalanceAppend(before, e);
      RootsAppend(before, e);
    }
  }

  /** Clamping only adds time, and adds none exactly when no exclusive time was negative. */
  lemma {:induction false} ClampingCost(s: seq<Span>)
    ensures ClampedSum(s) >= RawSum(s)
    ensures ClampedSum(s) == RawSum(s) <==> Negative(s) == {}
    decreases |s|
  {
    if s == [] {
      assert Negative(s) == {};
    } else {
      var before, e := s[..|s| - 1], s[|s| - 1];
      assert s == before + [e];
      ClampingCost(before);
      RecordsAppend(before, e);
      NegativeAppend(before, e);
      assert Negative(s) == {} <==> |Negative(s)| == 0;
      assert Negative(before) == {} <==> |Negative(before)| == 0;
    }
  }

  // ----- the loop -----

  /** `children[p]` is the elapsed time of the completed spans that wait for p. */
  ghost predicate Owed(s: seq<Span>, children: map<int, int>) {
    && children.Keys == Awaited(s)
    && forall p | p in children :: children[p] == Total(OrphansOf(s, p), Costs(s))
  }

  function Popped(children: map<int, int>, id: int): int { if id in children then children[id] else 0 }

  lemma AwaitedMeans(s: seq<Span>, p: int)
    ensures p in Awaited(s) <==> OrphansOf(s, p) != {}
  {
    if p in Awaited(s) {
      var k: nat :| k < |s| && s[k].parent != 0 && Next(s, k).None? && s[k].parent == p;
      assert k in OrphansOf(s, p);
    }
  }

  lemma PoppedIsOwed(s: seq<Span>, children: map<int, int>, p: int)
    requires Owed(s, children)
    ensures Popped(children, p) == Total(OrphansOf(s, p), Costs(s))
  {
    AwaitedMeans(s, p);
  }

  ghost function After(e: Span, children: map<int, int>): map<int, int> {
    var rest := children - {e.id};
    if e.parent == 0 then rest else rest[e.parent := Popped(rest, e.parent) + e.elapsed]
  }

  lemma OwedAfter(s: seq<Span>, e: Span, p: int)
    ensures Total(OrphansOf(s + [e], p), Costs(s + [e]))
         == (if p == e.id then 0 else Total(OrphansOf(s, p), Costs(s)))
          + if p != 0 && p == e.parent then e.elapsed else 0
  {
    OrphansAppend(s, e, p);
    var kept: set<nat> := if p == e.id then {} else OrphansOf(s, p);
    assert Total(kept, Costs(s)) == if p == e.id then 0 else Total(OrphansOf(s, p), Costs(s));
    if p != 0 && p == e.parent {
      SumAppend(kept, |s|, Costs(s), Costs(s + [e]));
    } else {
      assert OrphansOf(s + [e], p) == kept;
      TotalSame(kept, Costs(s), Costs(s + [e]));
    }
  }

  lemma OwedAppend(s: seq<Span>, e: Span, children: map<int, int>)
    requires Owed(s, children)
    ensures Owed(s + [e], After(e, children))
  {
    var after := After(e, children);
    forall p: int ensures p in Awaited(s + [e]) <==> p in after {
      AwaitedMeans(s, p);
      AwaitedMeans(s + [e], p);
      OrphansAppend(s, e, p);
    }
    forall p | p in after ensures after[p] == Total(OrphansOf(s + [e], p), Costs(s + [e])) {
      OwedAfter(s, e, p);
      PoppedIsOwed(s, children, p);
    }
  }

  // ----- the summary -----

  datatype Phase = Phase(name: string, begin: int, end: int)

  /** The first phase whose closed window holds the start time. */
  function PhaseOf(phases: seq<Phase>, start: int): string {
    if phases == [] then "outside-phases"
    else if phases[0].begin <= start <= phases[0].end then phases[0].name
    else PhaseOf(phases[1..], start)
  }

  /** The rows of the report: exclusive time by phase and operation. */
  type Groups = map<(string, string), int>

  function At(groups: Groups, k: (string, string)): int { if k in groups then groups[k] else 0 }

  function Charge(groups: Groups, k: (string, string), x: int): Groups { groups[k := At(groups, k) + x] }

  ghost function GroupCosts(groups: Groups): ((string, string)) -> int { (k: (string, string)) => At(groups, k) }

  /** The exclusive time of all the rows of the report. */
  ghost function Reported(groups: Groups): int { Total(groups.Keys, GroupCosts(groups)) }

  lemma ReportedAdd(groups: Groups, k: (string, string), x: int)
    ensures Reported(Charge(groups, k, x)) == Reported(groups) + x
  {
    var after := Charge(groups, k, x);
    var others := groups.Keys - {k};
    assert after.Keys - {k} == others;
    TotalRemove(after.Keys, k, GroupCosts(after));
    TotalSame(others, GroupCosts(groups), GroupCosts(after));
    if k in groups {
      TotalRemove(groups.Keys, k, GroupCosts(groups));
    } else {
      assert others == groups.Keys;
    }
  }

  // ----- every row by itself -----

  function KeyOf(phases: seq<Phase>, e: Span): (string, string) { (PhaseOf(phases, e.start), e.op) }

  ghost function RowCosts(phases: seq<Phase>, s: seq<Span>, k: (string, string)): nat -> int {
    (i: nat) => if i < |s| && KeyOf(phases, s[i]) == k then Clamp(Exclusive(s, i)) else 0
  }

  /** The clamped exclusive time of the records of one phase and operation. */
  ghost function RowSum(phases: seq<Phase>, s: seq<Span>, k: (string, string)): int { Sum(|s|, RowCosts(phases, s, k)) }

  ghost function RowOver(phases: seq<Phase>, files: seq<seq<Span>>, k: (string, string)): int {
    if files == [] then 0 else RowOver(phases, files[..|files| - 1], k) + RowSum(phases, files[|files| - 1], k)
  }

  /** Every row is the clamped sum over its records, and there is a row for every phase and operation met. */
  ghost predicate RowsAgree(phases: seq<Phase>, groups: Groups, files: seq<seq<Span>>) {
    && (forall k :: At(groups, k) == RowOver(phases, files, k))
    && forall k :: k in groups <==> Met(phases, files, k)
  }

  ghost predicate Met(phases: seq<Phase>, files: seq<seq<Span>>, k: (string, string)) {
    exists s, e :: s in files && e in s && KeyOf(phases, e) == k
  }

  /** The k-th phase is the first whose window, its ends included, holds the time. */
  ghost predicate FirstHolding(phases: seq<Phase>, start: int, k: int) {
    && 0 <= k < |phases| && phases[k].begin <= start && start <= phases[k].end
    && forall j | 0 <= j < k :: start < phases[j].begin || phases[j].end < start
  }

  lemma {:induction false} PhaseIsFirst(phases: seq<Phase>, start: int)
    ensures forall k | FirstHolding(phases, start, k) :: PhaseOf(phases, start) == phases[k].name
    ensures (exists k :: FirstHolding(phases, start, k)) || PhaseOf(phases, start) == "outside-phases"
  {
    if phases != [] {
      PhaseIsFirst(phases[1..], start);
      if k :| FirstHolding(phases[1..], start, k) {
        if !(phases[0].begin <= start <= phases[0].end) {
          assert FirstHolding(phases, start, k + 1) by {
            forall j | 0 <= j < k + 1 ensures start < phases[j].begin || phases[j].end < start {
              assert j > 0 ==> phases[j] == phases[1..][j - 1];
            }
          }
        } else {
          assert FirstHolding(phases, start, 0);
        }
      } else if phases[0].begin <= start <= phases[0].end {
        assert FirstHolding(phases, start, 0);
      }
      forall k | FirstHolding(phases, start, k) && k > 0 ensures FirstHolding(phases[1..], start, k - 1) {
        assert forall j | 0 <= j < k - 1 :: phases[1..][j] == phases[j + 1];
      }
    }
  }

  /** What a record adds to a row: its exclusive time unless that is negative, to the row of its operation in the
      first phase that holds its start. */
  lemma ChargeIsPlain(phases: seq<Phase>, s: seq<Span>, i: nat, k: int)
    requires i < |s| && FirstHolding(phases, s[i].start, k)
    ensures Exclusive(s, i) >= 0 ==> RowCosts(phases, s, (phases[k].name, s[i].op))(i) == Exclusive(s, i)
    ensures Exclusive(s, i) <= 0 ==> RowCosts(phases, s, (phases[k].name, s[i].op))(i) == 0
    ensures forall phase, op | phase != phases[k].name || op != s[i].op :: RowCosts(phases, s, (phase, op))(i) == 0
  {
    PhaseIsFirst(phases, s[i].start);
  }

  /** And to the row outside the phases when none holds it. */
  lemma ChargeOutside(phases: seq<Phase>, s: seq<Span>, i: nat)
    requires i < |s| && forall k | 0 <= k < |phases| :: s[i].start < phases[k].begin || phases[k].end < s[i].start
    ensures Exclusive(s, i) >= 0 ==> RowCosts(phases, s, ("outside-phases", s[i].op))(i) == Exclusive(s, i)
    ensures Exclusive(s, i) <= 0 ==> RowCosts(phases, s, ("outside-phases", s[i].op))(i) == 0
    ensures forall phase, op | phase != "outside-phases" || op != s[i].op :: RowCosts(phases, s, (phase, op))(i) == 0
  {
    PhaseIsFirst(phases, s[i].start);
  }

  lemma RowSumAppend(phases: seq<Phase>, s: seq<Span>, e: Span, k: (string, string))
    ensures RowSum(phases, s + [e], k)
         == RowSum(phases, s, k) + if KeyOf(phases, e) == k then Clamp(Exclusive(s + [e], |s|)) else 0
  {
    var t := s + [e];
    ExclusiveAppend(s, e);
    forall j: nat | j < |s| ensures RowCosts(phases, s, k)(j) == RowCosts(phases, t, k)(j) {
      assert t[j] == s[j] && Exclusive(t, j) == Exclusive(s, j);
    }
    SumSame(|s|, RowCosts(phases, s, k), RowCosts(phases, t, k));
  }

  lemma RowOverAppend(phases: seq<Phase>, files: seq<seq<Span>>, s: seq<Span>, k: (string, string))
    ensures RowOver(phases, files + [s], k) == RowOver(phases, files, k) + RowSum(phases, s, k)
  {
    assert (files + [s])[..|files|] == files;
  }

  lemma MetAppend(phases: seq<Phase>, files: seq<seq<Span>>, s: seq<Span>, e: Span, k: (string, string))
    ensures Met(phases, files + [s + [e]], k) <==> Met(phases, files + [s], k) || KeyOf(phases, e) == k
  {
    var before, after := files + [s], files + [s + [e]];
    if u, d :| u in before && d in u && KeyOf(phases, d) == k {
      assert (if u in files then u else s + [e]) in after && d in (if u in files then u else s + [e]);
    }
    if KeyOf(phases, e) == k {
      assert after[|files|] == s + [e] && (s + [e])[|s|] == e;
      assert s + [e] in after && e in s + [e];
    }
    if u, d :| u in after && d in u && KeyOf(phases, d) == k && KeyOf(phases, e) != k {
      assert before[|files|] == s;
      assert (if u in files then u else s) in before && d in (if u in files then u else s);
    }
  }

  /** One record charges its own row and no other. */
  lemma RowsStep(phases: seq<Phase>, groups: Groups, files: seq<seq<Span>>, s: seq<Span>, e: Span, raw: int)
    requires RowsAgree(phases, groups, files + [s]) && raw == Exclusive(s + [e], |s|)
    ensures RowsAgree(phases, Charge(groups, KeyOf(phases, e), Clamp(raw)), files + [s + [e]])
  {
    var after := Charge(groups, KeyOf(phases, e), Clamp(raw));
    forall k ensures At(after, k) == RowOver(phases, files + [s + [e]], k) {
      assert At(groups, k) == RowOver(phases, files + [s], k);
      RowOverAppend(phases, files, s, k);
      RowOverAppend(phases, files, s + [e], k);
      RowSumAppend(phases, s, e, k);
    }
    forall k ensures k in after <==> Met(phases, files + [s + [e]], k) {
      assert k in groups <==> Met(phases, files + [s], k);
      MetAppend(phases, files, s, e, k);
    }
  }

  lemma RowsOfNewFile(phases: seq<Phase>, groups: Groups, files: seq<seq<Span>>)
    requires RowsAgree(phases, groups, files)
    ensures RowsAgree(phases, groups, files + [[]])
  {
    forall k ensures At(groups, k) == RowOver(phases, files + [[]], k) {
      assert At(groups, k) == RowOver(phases, files, k);
      RowOverAppend(phases, files, [], k);
    }
    forall k ensures k in groups <==> Met(phases, files + [[]], k) {
      assert k in groups <==> Met(phases, files, k);
      if s, e :| s in files && e in s && KeyOf(phases, e) == k {
        assert s in files + [[]];
      }
    }
  }

  // ----- reading one file -----

  /** Where the record loop stands: the rows, `children`, and how many spans were negative. */
  datatype Progress = Progress(groups: Groups, children: map<int, int>, negative: int)

  function Left(at: Progress, e: Span): int { e.elapsed - Popped(at.children, e.id) }

  ghost function Step(phases: seq<Phase>, at: Progress, e: Span): Progress {
    Progress(Charge(at.groups, KeyOf(phases, e), Clamp(Left(at, e))), After(e, at.children),
             at.negative + if Left(at, e) < 0 then 1 else 0)
  }

  ghost function Reading(phases: seq<Phase>, groups: Groups, s: seq<Span>): Progress {
    if s == [] then Progress(groups, map[], 0) else Step(phases, Reading(phases, groups, s[..|s| - 1]), s[|s| - 1])
  }

  lemma ReadingNext(phases: seq<Phase>, groups: Groups, records: seq<Span>, n: int)
    requires 0 <= n < |records|
    ensures Reading(phases, groups, records[..n + 1]) == Step(phases, Reading(phases, groups, records[..n]), records[n])
  {
    assert records[..n + 1][..n] == records[..n];
  }

  /** `children` and the number of negative spans are right. */
  ghost predicate Counted(s: seq<Span>, at: Progress) { Owed(s, at.children) && at.negative == |Negative(s)| }

  lemma LeftIsExclusive(s: seq<Span>, e: Span, at: Progress)
    requires Counted(s, at)
    ensures Left(at, e) == Exclusive(s + [e], |s|)
  {
    PoppedIsOwed(s, at.children, e.id);
    ExclusiveAppend(s, e);
  }

  lemma CountedNext(phases: seq<Phase>, s: seq<Span>, e: Span, at: Progress)
    requires Counted(s, at)
    ensures Counted(s + [e], Step(phases, at, e))
  {
    LeftIsExclusive(s, e, at);
    OwedAppend(s, e, at.children);
    NegativeAppend(s, e);
  }

  lemma {:induction false} ReadingCounts(phases: seq<Phase>, groups: Groups, s: seq<Span>)
    ensures Counted(s, Reading(phases, groups, s))
    decreases |s|
  {
    if s == [] {
      assert Negative(s) == {} && Awaited(s) == {};
    } else {
      var before, e := s[..|s| - 1], s[|s| - 1];
      assert s == before + [e];
      ReadingCounts(phases, groups, before);
      CountedNext(phases, before, e, Reading(phases, groups, before));
    }
  }

  lemma RowsNext(phases: seq<Phase>, files: seq<seq<Span>>, s: seq<Span>, e: Span, at: Progress)
    requires RowsAgree(phases, at.groups, files + [s]) && Counted(s, at)
    ensures RowsAgree(phases, Step(phases, at, e).groups, files + [s + [e]])
  {
    LeftIsExclusive(s, e, at);
    RowsStep(phases, at.groups, files, s, e, Left(at, e));
  }

  lemma {:induction false} ReadingRows(phases: seq<Phase>, groups: Groups, files: seq<seq<Span>>, s: seq<Span>)
    requires RowsAgree(phases, groups, files)
    ensures RowsAgree(phases, Reading(phases, groups, s).groups, files + [s])
    decreases |s|
  {
    if s == [] {
      RowsOfNewFile(phases, groups, files);
    } else {
      var before, e := s[..|s| - 1], s[|s| - 1];
      assert s == before + [e];
      ReadingRows(phases, groups, files, before);
      ReadingCounts(phases, groups, before);
      RowsNext(phases, files, before, e, Reading(phases, groups, before));
    }
  }

  lemma SumNext(phases: seq<Phase>, s: seq<Span>, e: Span, at: Progress)
    requires Counted(s, at)
    ensures Reported(Step(phases, at, e).groups) == Reported(at.groups) + (ClampedSum(s + [e]) - ClampedSum(s))
  {
    LeftIsExclusive(s, e, at);
    RecordsAppend(s, e);
    ReportedAdd(at.groups, KeyOf(phases, e), Clamp(Left(at, e)));
  }

  lemma {:induction false} ReadingSum(phases: seq<Phase>, groups: Groups, s: seq<Span>)
    ensures Reported(Reading(phases, groups, s).groups) == Reported(groups) + ClampedSum(s)
    decreases |s|
  {
    if s != [] {
      var before, e := s[..|s| - 1], s[|s| - 1];
      assert s == before + [e];
      ReadingSum(phases, groups, before);
      ReadingCounts(phases, groups, before);
      SumNext(phases, before, e, Reading(phases, groups, before));
    }
  }

  lemma ChildrenLeft(phases: seq<Phase>, groups: Groups, s: seq<Span>)
    ensures |Reading(phases, groups, s).children| == |Awaited(s)|
            && Reading(phases, groups, s).negative == |Negative(s)|
  {
    ReadingCounts(phases, groups, s);
    var children := Reading(phases, groups, s).children;
    assert |children| == |children.Keys|;
  }

  ghost function ClampedOver(files: seq<seq<Span>>): int {
    if files == [] then 0 else ClampedOver(files[..|files| - 1]) + ClampedSum(files[|files| - 1])
  }

  ghost function RawOver(files: seq<seq<Span>>): int {
    if files == [] then 0 else RawOver(files[..|files| - 1]) + RawSum(files[|files| - 1])
  }

  ghost function NegativeOver(files: seq<seq<Span>>): int {
    if files == [] then 0 else NegativeOver(files[..|files| - 1]) + |Negative(files[|files| - 1])|
  }

  class Summary {
    const phases: seq<Phase>
    var exclusive: Groups
    var negativeSpans: int
    var unresolvedParents: int
    ghost var files: seq<seq<Span>>

    ghost predicate Valid()
      reads this
    {
      && RowsAgree(phases, exclusive, files)
      && Reported(exclusive) == ClampedOver(files)
      && negativeSpans == NegativeOver(files)
      && unresolvedParents == AwaitedOver(files)
    }

    constructor (phases: seq<Phase>)
      ensures Valid() && files == []
    {
      this.phases := phases;
      exclusive, negativeSpans, unresolvedParents := map[], 0, 0;
      files := [];
    }

    /** One record: the exclusive time is charged and the parent is told of the elapsed time. */
    method ProcessRecord(e: Span, children: map<int, int>) returns (after: map<int, int>)
      modifies `exclusive, `negativeSpans
      ensures Progress(exclusive, after, negativeSpans)
              == Step(phases, Progress(old(exclusive), children, old(negativeSpans)), e)
    {
      var raw := e.elapsed - (if e.id in children then children[e.id] else 0);
      after := children - {e.id};
      if raw < 0 {
        negativeSpans := negativeSpans + 1;
      }
      var charged := if raw < 0 then 0 else raw;
      if e.parent != 0 {
        after := after[e.parent := (if e.parent in after then after[e.parent] else 0) + e.elapsed];
      }
      var key := (PhaseOf(phases, e.start), e.op);
      exclusive := exclusive[key := (if key in exclusive then exclusive[key] else 0) + charged];
    }

    method ProcessFile(records: seq<Span>)
      requires Valid()
      modifies this
      ensures Valid() && files == old(files) + [records]
    {
      ReadingRows(phases, exclusive, files, records);
      ReadingSum(phases, exclusive, records);
      ChildrenLeft(phases, exclusive, records);
      OverAppend(files, records);
      var children := ReadFile(records);
      unresolvedParents := unresolvedParents + |children|;
      files := files + [records];
    }

    /** The record loop. */
    method ReadFile(records: seq<Span>) returns (children: map<int, int>)
      modifies `exclusive, `negativeSpans
      ensures Progress(exclusive, children, negativeSpans - old(negativeSpans))
              == Reading(phases, old(exclusive), records)
    {
      children := map[];
      for n := 0 to |records|
        invariant Progress(exclusive, children, negativeSpans - old(negativeSpans))
               == Reading(phases, old(exclusive), records[..n])
      {
        ReadingNext(phases, old(exclusive), records, n);
        children := ProcessRecord(records[n], children);
      }
      assert records[..|records|] == records;
    }

    /** The report is never below the raw time, and equals it exactly when no span came out negative. */
    lemma ReportIsExactIffNoNegative()
      requires Valid()
      ensures Reported(exclusive) >= RawOver(files)
      ensures Reported(exclusive) == RawOver(files) <==> negativeSpans == 0
    {
      ClampingOver(files);
    }
  }

  lemma OverAppend(files: seq<seq<Span>>, s: seq<Span>)
    ensures ClampedOver(files + [s]) == ClampedOver(files) + ClampedSum(s)
    ensures NegativeOver(files + [s]) == NegativeOver(files) + |Negative(s)|
    ensures AwaitedOver(files + [s]) == AwaitedOver(files) + |Awaited(s)|
  {
    assert (files + [s])[..|files|] == files;
  }

  lemma {:induction false} ClampingOver(files: seq<seq<Span>>)
    ensures ClampedOver(files) >= RawOver(files) && NegativeOver(files) >= 0
    ensures ClampedOver(files) == RawOver(files) <==> NegativeOver(files) == 0
  {
    if files != [] {
      ClampingOver(files[..|files| - 1]);
      ClampingCost(files[|files| - 1]);
    }
  }
}
