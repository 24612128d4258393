/** Which callers the selected operations ran under: `callers` in the image-reuse analysis.

    Unlike the nearest attribution, a selected event is entered under every proper ancestor, and the
    `pending` map has rows only for parents that have a selected event below them. */
module Callers {
  import opened Tallies
  import opened Spans

  /** A row of the complete event log, as far as `callers` reads it. */
  datatype Entry = Entry(file: string, phase: string, span: Span)

  const OPERATIONS := {
    "native.CreateFileW", "native.NtCreateFile", "native.NtQueryAttributesFile",
    "native.NtQueryEaFile", "map.open_metadata", "map.resolve"
  }

  predicate Chosen(r: Entry, phase: string) { r.phase == phase && r.span.op in OPERATIONS }

  ghost function Bodies(run: seq<Entry>): (s: seq<Span>)
    ensures |s| == |run|
  {
    seq(|run|, i requires 0 <= i < |run| => run[i].span)
  }

  lemma BodiesAppend(run: seq<Entry>, r: Entry)
    ensures Bodies(run + [r]) == Bodies(run) + [r.span]
  {
  }

  // ----- what the tables are meant to say -----

  ghost predicate ChosenAs(run: seq<Entry>, phase: string, i: nat, op: string)
    requires i < |run|
  {
    Chosen(run[i], phase) && run[i].span.op == op
  }

  /** Selected events named op, each with every proper ancestor named caller. */
  ghost function AncestorPairs(run: seq<Entry>, phase: string, caller: string, op: string): set<(nat, nat)> {
    set i: nat, j: nat | i < j < |run| && ChosenAs(run, phase, i, op) && run[j].span.op == caller
                      && Ancestor(Bodies(run), i, j) :: (i, j)
  }

  /** Selected events named op whose parent is named caller. */
  ghost function DirectPairs(run: seq<Entry>, phase: string, caller: string, op: string): set<(nat, nat)> {
    set i: nat, j: nat | i < j < |run| && ChosenAs(run, phase, i, op) && run[j].span.op == caller
                      && Next(Bodies(run), i) == Some(j) :: (i, j)
  }

  /** Ids of parents that never complete and have a selected event below them. */
  ghost function MissingCallers(run: seq<Entry>, phase: string): set<int> {
    var s := Bodies(run);
    set i: nat, k: nat | i <= k < |run| && Chosen(run[i], phase) && (i == k || Ancestor(s, i, k))
                      && Next(s, k).None? && s[k].parent != 0 :: s[k].parent
  }

  /** The operations that are looked at, in the phase that is asked for. */
  ghost predicate Selected(r: Entry, phase: string) {
    && r.phase == phase
    && (r.span.op == "native.CreateFileW" || r.span.op == "native.NtCreateFile"
        || r.span.op == "native.NtQueryAttributesFile" || r.span.op == "native.NtQueryEaFile"
        || r.span.op == "map.open_metadata" || r.span.op == "map.resolve")
  }

  /** What is counted for a caller: every selected event of the phase, by its own name. */
  lemma PairsArePlain(run: seq<Entry>, phase: string, caller: string, op: string, i: nat, j: nat)
    ensures (i, j) in AncestorPairs(run, phase, caller, op)
       <==> && i < j < |run| && Selected(run[i], phase) && run[i].span.op == op && run[j].span.op == caller
            && Ancestor(Bodies(run), i, j)
    ensures (i, j) in DirectPairs(run, phase, caller, op)
       <==> && i < j < |run| && Selected(run[i], phase) && run[i].span.op == op && run[j].span.op == caller
            && Next(Bodies(run), i) == Some(j)
    ensures i < |run| ==> (Chosen(run[i], phase) <==> Selected(run[i], phase))
  {
  }

  ghost function PairCosts(run: seq<Entry>): ((nat, nat)) -> int {
    (p: (nat, nat)) => if p.0 < |run| then run[p.0].span.elapsed else 0
  }

  type Row = seq<Entry> -> Tally

  ghost function AncestorRow(phase: string, caller: string, op: string): Row {
    (run: seq<Entry>) => TallyOf(AncestorPairs(run, phase, caller, op), PairCosts(run))
  }

  ghost function DirectRow(phase: string, caller: string, op: string): Row {
    (run: seq<Entry>) => TallyOf(DirectPairs(run, phase, caller, op), PairCosts(run))
  }

  /** The log split where the file name changes. */
  ghost function Runs(rows: seq<Entry>): (runs: seq<seq<Entry>>)
    ensures rows != [] ==> runs != []
  {
    if rows == [] then [] else
      var before, last := rows[..|rows| - 1], rows[|rows| - 1];
      var runs := Runs(before);
      if before != [] && before[|before| - 1].file == last.file
      then runs[..|runs| - 1] + [runs[|runs| - 1] + [last]]
      else runs + [[last]]
  }

  ghost function Joined(runs: seq<seq<Entry>>): seq<Entry> {
    if runs == [] then [] else Joined(runs[..|runs| - 1]) + runs[|runs| - 1]
  }

  /** The runs make up the log, each is of one file, and the file changes from one to the next. */
  ghost predicate SplitsByFile(rows: seq<Entry>, runs: seq<seq<Entry>>) {
    && Joined(runs) == rows
    && (forall k | 0 <= k < |runs| :: runs[k] != [] && forall r | r in runs[k] :: r.file == runs[k][0].file)
    && forall j, k | 0 <= j < k < |runs| && k == j + 1 ::
         runs[j] != [] && runs[k] != [] && runs[j][0].file != runs[k][0].file
  }

  lemma {:induction false} RunsSplit(rows: seq<Entry>)
    ensures SplitsByFile(rows, Runs(rows))
  {
    if rows != [] {
      var before, last := rows[..|rows| - 1], rows[|rows| - 1];
      RunsSplit(before);
      assert rows == before + [last];
      LastFile(before, Runs(before));
      if before != [] && before[|before| - 1].file == last.file {
        LongerRun(before, Runs(before), last);
      } else {
        AnotherRun(before, Runs(before), last);
      }
    }
  }

  /** The last run holds the last row. */
  lemma LastFile(rows: seq<Entry>, runs: seq<seq<Entry>>)
    requires SplitsByFile(rows, runs)
    ensures rows != [] ==> runs != [] && rows[|rows| - 1].file == runs[|runs| - 1][0].file
    ensures rows == [] ==> runs == []
  {
    if runs != [] {
      var run := runs[|runs| - 1];
      assert rows[|rows| - 1] == run[|run| - 1] && run[|run| - 1] in run;
    }
  }

  lemma LongerRun(rows: seq<Entry>, runs: seq<seq<Entry>>, r: Entry)
    requires SplitsByFile(rows, runs) && runs != [] && runs[|runs| - 1][0].file == r.file
    ensures SplitsByFile(rows + [r], runs[..|runs| - 1] + [runs[|runs| - 1] + [r]])
  {
    var others, run := runs[..|runs| - 1], runs[|runs| - 1];
    var after := others + [run + [r]];
    assert after[..|after| - 1] == others;
    assert Joined(others) + (run + [r]) == Joined(others) + run + [r];
  }

  lemma AnotherRun(rows: seq<Entry>, runs: seq<seq<Entry>>, r: Entry)
    requires SplitsByFile(rows, runs) && (runs != [] ==> runs[|runs| - 1][0].file != r.file)
    ensures SplitsByFile(rows + [r], runs + [[r]])
  {
    assert (runs + [[r]])[..|runs|] == runs;
  }

  // ----- the pending map -----

  /** The id of the span the way up from i is waiting for; 0 once it has passed a root. */
  ghost function Heading(run: seq<Entry>, i: nat): int
    requires i < |run|
  {
    Bodies(run)[Front(Bodies(run), i)].parent
  }

  lemma HeadingAfter(run: seq<Entry>, r: Entry, i: nat)
    requires i <= |run|
    ensures Heading(run + [r], i)
         == if i == |run| || (Heading(run, i) != 0 && Heading(run, i) == r.span.id) then r.span.parent
            else Heading(run, i)
  {
    BodiesAppend(run, r);
    FrontAppend(Bodies(run), r.span, i);
  }

  /** Selected events named op on their way up to parent p. */
  ghost function Nested(run: seq<Entry>, phase: string, p: int, op: string): set<nat> {
    set i: nat | i < |run| && ChosenAs(run, phase, i, op) && p != 0 && Heading(run, i) == p
  }

  /** Those of them whose parent p is. */
  ghost function Immediate(run: seq<Entry>, phase: string, p: int, op: string): set<nat> {
    set i: nat | i in Nested(run, phase, p, op) && Front(Bodies(run), i) == i
  }

  ghost function Expecting(run: seq<Entry>, phase: string): set<int> {
    set i: nat | i < |run| && Chosen(run[i], phase) && Heading(run, i) != 0 :: Heading(run, i)
  }

  datatype Waiting = Waiting(nested: map<string, Tally>, direct: map<string, Tally>)

  const FRESH := Waiting(map[], map[])

  function Lookup(pending: map<int, Waiting>, id: int): Waiting {
    if id in pending then pending[id] else FRESH
  }

  ghost predicate RowTracks(run: seq<Entry>, phase: string, p: int, row: Waiting) {
    && Live(row.nested) && Live(row.direct)
    && (forall op :: Get(row.nested, op) == TallyOf(Nested(run, phase, p, op), Costs(Bodies(run))))
    && (forall op :: Get(row.direct, op) == TallyOf(Immediate(run, phase, p, op), Costs(Bodies(run))))
  }

  ghost predicate Tracks(run: seq<Entry>, phase: string, pending: map<int, Waiting>) {
    && pending.Keys == Expecting(run, phase)
    && forall p | p in pending :: RowTracks(run, phase, p, pending[p])
  }

  lemma LookupTracks(run: seq<Entry>, phase: string, pending: map<int, Waiting>, p: int)
    requires Tracks(run, phase, pending)
    ensures RowTracks(run, phase, p, Lookup(pending, p))
    ensures Lookup(pending, p).nested != map[] <==> p in pending
  {
    if p !in pending {
      forall op ensures Nested(run, phase, p, op) == {} && Immediate(run, phase, p, op) == {} {}
    } else {
      var i: nat :| i < |run| && Chosen(run[i], phase) && Heading(run, i) == p && p != 0;
      assert i in Nested(run, phase, p, run[i].span.op);
      assert Get(pending[p].nested, run[i].span.op).count != 0;
    }
  }

  ghost function One(run: seq<Entry>, phase: string, r: Entry, op: string): set<nat> {
    if Chosen(r, phase) && r.span.op == op then {|run|} else {}
  }

  lemma NestedGrows(run: seq<Entry>, phase: string, r: Entry, p: int, op: string)
    ensures Nested(run + [r], phase, p, op)
         == (if p == r.span.id then {} else Nested(run, phase, p, op))
          + (if p != 0 && p == r.span.parent then Nested(run, phase, r.span.id, op) + One(run, phase, r, op) else {})
  {
    forall i: nat | i <= |run| { HeadingAfter(run, r, i); }
  }

  lemma ImmediateGrows(run: seq<Entry>, phase: string, r: Entry, p: int, op: string)
    ensures Immediate(run + [r], phase, p, op)
         == (if p == r.span.id then {} else Immediate(run, phase, p, op))
          + (if p != 0 && p == r.span.parent then One(run, phase, r, op) else {})
  {
    NestedGrows(run, phase, r, p, op);
    BodiesAppend(run, r);
    forall i: nat | i <= |run| { FrontAppend(Bodies(run), r.span, i); }
  }

  ghost function KeptNested(run: seq<Entry>, phase: string, r: Entry, op: string): set<nat> {
    if r.span.parent == r.span.id then {} else Nested(run, phase, r.span.parent, op)
  }

  lemma KeptApart(run: seq<Entry>, phase: string, r: Entry, op: string)
    ensures KeptNested(run, phase, r, op) !! Nested(run, phase, r.span.id, op)
  {
  }

  lemma NestedTally(run: seq<Entry>, phase: string, r: Entry, op: string)
    requires r.span.parent != 0
    ensures TallyOf(Nested(run + [r], phase, r.span.parent, op), Costs(Bodies(run + [r])))
         == Plus(Plus(TallyOf(KeptNested(run, phase, r, op), Costs(Bodies(run))),
                      TallyOf(Nested(run, phase, r.span.id, op), Costs(Bodies(run)))),
                 if Chosen(r, phase) && r.span.op == op then Tally(1, r.span.elapsed) else NOTHING)
  {
    var after := Nested(run + [r], phase, r.span.parent, op);
    var kept, below := KeptNested(run, phase, r, op), Nested(run, phase, r.span.id, op);
    assert after == kept + below + One(run, phase, r, op) by {
      NestedGrows(run, phase, r, r.span.parent, op);
    }
    assert kept !! below by { KeptApart(run, phase, r, op); }
    SplitTally(run, r, kept, below, Chosen(r, phase) && r.span.op == op, after);
  }

  lemma SplitTally(run: seq<Entry>, r: Entry, kept: set<nat>, below: set<nat>, here: bool, after: set<nat>)
    requires forall i | i in kept + below :: i < |run|
    requires kept !! below && after == kept + below + (if here then {|run|} else {})
    ensures TallyOf(after, Costs(Bodies(run + [r])))
         == Plus(Plus(TallyOf(kept, Costs(Bodies(run))), TallyOf(below, Costs(Bodies(run)))),
                 if here then Tally(1, r.span.elapsed) else NOTHING)
  {
    TallyUnion(kept, below, Costs(Bodies(run)));
    BodiesAppend(run, r);
    GrownByOne(Bodies(run), r.span, kept + below, here, after);
  }

  ghost function KeptImmediate(run: seq<Entry>, phase: string, r: Entry, op: string): set<nat> {
    if r.span.parent == r.span.id then {} else Immediate(run, phase, r.span.parent, op)
  }

  lemma ImmediateTally(run: seq<Entry>, phase: string, r: Entry, op: string)
    requires r.span.parent != 0
    ensures TallyOf(Immediate(run + [r], phase, r.span.parent, op), Costs(Bodies(run + [r])))
         == Plus(TallyOf(KeptImmediate(run, phase, r, op), Costs(Bodies(run))),
                 if Chosen(r, phase) && r.span.op == op then Tally(1, r.span.elapsed) else NOTHING)
  {
    ImmediateGrows(run, phase, r, r.span.parent, op);
    BodiesAppend(run, r);
    GrownByOne(Bodies(run), r.span, KeptImmediate(run, phase, r, op), Chosen(r, phase) && r.span.op == op,
               Immediate(run + [r], phase, r.span.parent, op));
  }

  function AddIf(table: map<string, Tally>, here: bool, e: Span): map<string, Tally> {
    if here then Add(table, e.op, Tally(1, e.elapsed)) else table
  }

  lemma AddIfRow(table: map<string, Tally>, here: bool, e: Span, op: string)
    ensures Get(AddIf(table, here, e), op)
         == Plus(Get(table, op), if here && e.op == op then Tally(1, e.elapsed) else NOTHING)
  {
    AddRowIf(table, here, e.op, Tally(1, e.elapsed), op);
  }

  lemma AddIfLive(table: map<string, Tally>, here: bool, e: Span)
    requires Live(table)
    ensures Live(AddIf(table, here, e))
  {
  }

  /** What `pending` becomes when row r, whose own entry was `own`, has been passed to its parent. */
  ghost function Passed(r: Entry, phase: string, pending: map<int, Waiting>): map<int, Waiting> {
    var own, rest, chosen := Lookup(pending, r.span.id), pending - {r.span.id}, Chosen(r, phase);
    if r.span.parent == 0 || (own.nested == map[] && !chosen) then rest else
      var state := Lookup(rest, r.span.parent);
      rest[r.span.parent := Waiting(AddIf(Combined(state.nested, own.nested), chosen, r.span),
                                    AddIf(state.direct, chosen, r.span))]
  }

  lemma ExpectingAppend(run: seq<Entry>, phase: string, r: Entry)
    ensures Expecting(run + [r], phase)
         == Expecting(run, phase) - {r.span.id}
          + if r.span.parent != 0 && (Chosen(r, phase) || r.span.id in Expecting(run, phase)) then {r.span.parent}
            else {}
  {
    var t := run + [r];
    forall i: nat | i <= |run| { HeadingAfter(run, r, i); }
    forall i: nat | i < |run| && Chosen(run[i], phase) && Heading(run, i) != 0
      ensures (if Heading(run, i) == r.span.id then r.span.parent else Heading(run, i)) in Expecting(t, phase) + {0}
    {
      assert Chosen(t[i], phase);
    }
    assert Chosen(t[|run|], phase) == Chosen(r, phase);
  }

  lemma SameTally(run: seq<Entry>, r: Entry, items: set<nat>)
    requires forall i | i in items :: i < |run|
    ensures TallyOf(items, Costs(Bodies(run + [r]))) == TallyOf(items, Costs(Bodies(run)))
  {
    BodiesAppend(run, r);
    TotalSame(items, Costs(Bodies(run)), Costs(Bodies(run + [r])));
  }

  /** A row keeps its meaning when nothing is passed to it, even if its parent id is r's parent. */
  lemma QuietRow(run: seq<Entry>, phase: string, r: Entry, p: int, row: Waiting)
    requires RowTracks(run, phase, p, row) && p != r.span.id
    requires p == r.span.parent ==> !Chosen(r, phase) && r.span.id !in Expecting(run, phase)
    ensures RowTracks(run + [r], phase, p, row)
  {
    forall op ensures Nested(run + [r], phase, p, op) == Nested(run, phase, p, op) {
      NestedGrows(run, phase, r, p, op);
    }
    forall op ensures Immediate(run + [r], phase, p, op) == Immediate(run, phase, p, op) {
      ImmediateGrows(run, phase, r, p, op);
    }
    forall op ensures Get(row.nested, op) == TallyOf(Nested(run + [r], phase, p, op), Costs(Bodies(run + [r]))) {
      SameTally(run, r, Nested(run, phase, p, op));
    }
    forall op ensures Get(row.direct, op) == TallyOf(Immediate(run + [r], phase, p, op), Costs(Bodies(run + [r]))) {
      SameTally(run, r, Immediate(run, phase, p, op));
    }
  }

  lemma ParentNested(run: seq<Entry>, phase: string, r: Entry, state: Waiting, own: Waiting, op: string)
    requires r.span.parent != 0
    requires Get(state.nested, op) == TallyOf(KeptNested(run, phase, r, op), Costs(Bodies(run)))
    requires Get(own.nested, op) == TallyOf(Nested(run, phase, r.span.id, op), Costs(Bodies(run)))
    ensures Get(AddIf(Combined(state.nested, own.nested), Chosen(r, phase), r.span), op)
         == TallyOf(Nested(run + [r], phase, r.span.parent, op), Costs(Bodies(run + [r])))
  {
    AddIfRow(Combined(state.nested, own.nested), Chosen(r, phase), r.span, op);
    CombinedRows(state.nested, own.nested, op);
    NestedTally(run, phase, r, op);
  }

  lemma ParentDirect(run: seq<Entry>, phase: string, r: Entry, state: Waiting, op: string)
    requires r.span.parent != 0
    requires Get(state.direct, op)
          == TallyOf(KeptImmediate(run, phase, r, op), Costs(Bodies(run)))
    ensures Get(AddIf(state.direct, Chosen(r, phase), r.span), op)
         == TallyOf(Immediate(run + [r], phase, r.span.parent, op), Costs(Bodies(run + [r])))
  {
    AddIfRow(state.direct, Chosen(r, phase), r.span, op);
    ImmediateTally(run, phase, r, op);
  }

  lemma ParentRow(run: seq<Entry>, phase: string, r: Entry, state: Waiting, own: Waiting)
    requires r.span.parent != 0
    requires if r.span.parent == r.span.id then state == FRESH else RowTracks(run, phase, r.span.parent, state)
    requires RowTracks(run, phase, r.span.id, own)
    ensures RowTracks(run + [r], phase, r.span.parent,
                      Waiting(AddIf(Combined(state.nested, own.nested), Chosen(r, phase), r.span),
                              AddIf(state.direct, Chosen(r, phase), r.span)))
  {
    TallyNone<nat>(Costs(Bodies(run)));
    forall op { ParentNested(run, phase, r, state, own, op); }
    forall op { ParentDirect(run, phase, r, state, op); }
    AddIfLive(Combined(state.nested, own.nested), Chosen(r, phase), r.span);
    AddIfLive(state.direct, Chosen(r, phase), r.span);
  }

  lemma TracksAppend(run: seq<Entry>, phase: string, r: Entry, pending: map<int, Waiting>)
    requires Tracks(run, phase, pending)
    ensures Tracks(run + [r], phase, Passed(r, phase, pending))
  {
    var after, rest := Passed(r, phase, pending), pending - {r.span.id};
    LookupTracks(run, phase, pending, r.span.id);
    ExpectingAppend(run, phase, r);
    forall p | p in after ensures RowTracks(run + [r], phase, p, after[p]) {
      if p == r.span.parent && (r.span.id in pending || Chosen(r, phase)) {
        LookupTracks(run, phase, pending, p);
        ParentRow(run, phase, r, Lookup(rest, p), Lookup(pending, r.span.id));
      } else {
        QuietRow(run, phase, r, p, pending[p]);
      }
    }
  }

  // ----- the rows of the two tables -----

  /** Each of the events in `items`, paired with record n. */
  ghost function Paired(items: set<nat>, n: nat): set<(nat, nat)> {
    set i: nat | i in items :: (i, n)
  }

  lemma PairedRemove(items: set<nat>, i: nat, n: nat)
    requires i in items
    ensures (i, n) in Paired(items, n) && Paired(items, n) - {(i, n)} == Paired(items - {i}, n)
  {
    assert (i, n) in Paired(items, n);
  }

  lemma {:induction false} PairedCount(items: set<nat>, n: nat)
    ensures |Paired(items, n)| == |items|
    decreases items
  {
    if items == {} {
      assert Paired(items, n) == {};
    } else {
      var i :| i in items;
      PairedRemove(items, i, n);
      PairedCount(items - {i}, n);
    }
  }

  lemma {:induction false} PairedTotal(run: seq<Entry>, items: set<nat>, n: nat)
    requires forall i | i in items :: i < |run|
    ensures Total(Paired(items, n), PairCosts(run)) == Total(items, Costs(Bodies(run)))
    decreases items
  {
    if items == {} {
      assert Paired(items, n) == {};
    } else {
      var i :| i in items;
      PairedTotal(run, items - {i}, n);
      PairedRemove(items, i, n);
      TotalRemove(items, i, Costs(Bodies(run)));
      TotalRemove(Paired(items, n), (i, n), PairCosts(run));
    }
  }

  lemma PairedTally(run: seq<Entry>, items: set<nat>, n: nat)
    requires forall i | i in items :: i < |run|
    ensures TallyOf(Paired(items, n), PairCosts(run)) == TallyOf(items, Costs(Bodies(run)))
  {
    PairedCount(items, n);
    PairedTotal(run, items, n);
  }

  lemma AncestorPairsGrow(run: seq<Entry>, phase: string, r: Entry, caller: string, op: string)
    ensures AncestorPairs(run + [r], phase, caller, op)
         == AncestorPairs(run, phase, caller, op)
          + if r.span.op == caller then Paired(Nested(run, phase, r.span.id, op), |run|) else {}
  {
    BodiesAppend(run, r);
    var s, t := Bodies(run), run + [r];
    BelowIsAncestry(s, r.span);
    forall i: nat, j: nat | i < j < |run| { AncestorStable(s, r.span, i, j); }
    forall p | p in AncestorPairs(t, phase, caller, op)
      ensures p in AncestorPairs(run, phase, caller, op)
                 + if r.span.op == caller then Paired(Nested(run, phase, r.span.id, op), |run|) else {}
    {
      if p.1 < |run| {
        assert ChosenAs(run, phase, p.0, op) && Ancestor(s, p.0, p.1);
      } else {
        assert p.0 in Nested(run, phase, r.span.id, op);
      }
    }
    forall p | p in AncestorPairs(run, phase, caller, op) ensures p in AncestorPairs(t, phase, caller, op) {
      assert ChosenAs(t, phase, p.0, op) && Ancestor(Bodies(t), p.0, p.1);
    }
    forall i | i in Nested(run, phase, r.span.id, op) && r.span.op == caller
      ensures (i, |run|) in AncestorPairs(t, phase, caller, op)
    {
      assert ChosenAs(t, phase, i, op) && Ancestor(Bodies(t), i, |run|);
    }
  }

  lemma NextOrFront(s: seq<Span>, e: Span, i: nat, j: nat)
    requires i < j <= |s|
    ensures j < |s| ==> (Next(s + [e], i) == Some(j) <==> Next(s, i) == Some(j))
    ensures j == |s| ==> (Next(s + [e], i) == Some(j) <==> Front(s, i) == i && s[i].parent != 0 && s[i].parent == e.id)
  {
    FrontClimbs(s, i);
    NextAppend(s, e, i);
  }

  lemma DirectPairsGrow(run: seq<Entry>, phase: string, r: Entry, caller: string, op: string)
    ensures DirectPairs(run + [r], phase, caller, op)
         == DirectPairs(run, phase, caller, op)
          + if r.span.op == caller then Paired(Immediate(run, phase, r.span.id, op), |run|) else {}
  {
    BodiesAppend(run, r);
    var s, t := Bodies(run), run + [r];
    forall i: nat, j: nat | i < j <= |run| { NextOrFront(s, r.span, i, j); }
    forall p | p in DirectPairs(t, phase, caller, op)
      ensures p in DirectPairs(run, phase, caller, op)
                 + if r.span.op == caller then Paired(Immediate(run, phase, r.span.id, op), |run|) else {}
    {
      if p.1 < |run| {
        assert ChosenAs(run, phase, p.0, op) && Next(s, p.0) == Some(p.1);
      } else {
        assert p.0 in Immediate(run, phase, r.span.id, op);
      }
    }
    forall p | p in DirectPairs(run, phase, caller, op) ensures p in DirectPairs(t, phase, caller, op) {
      assert ChosenAs(t, phase, p.0, op) && Next(Bodies(t), p.0) == Some(p.1);
    }
    forall i | i in Immediate(run, phase, r.span.id, op) && r.span.op == caller
      ensures (i, |run|) in DirectPairs(t, phase, caller, op)
    {
      assert ChosenAs(t, phase, i, op) && Next(Bodies(t), i) == Some(|run|);
    }
  }

  /** Pairs of earlier records cost the same when the run goes on. */
  lemma PairsStay(run: seq<Entry>, r: Entry, pairs: set<(nat, nat)>)
    requires forall p | p in pairs :: p.0 < |run|
    ensures TallyOf(pairs, PairCosts(run + [r])) == TallyOf(pairs, PairCosts(run))
  {
    forall p | p in pairs ensures PairCosts(run)(p) == PairCosts(run + [r])(p) {
      assert (run + [r])[p.0] == run[p.0];
    }
    TotalSame(pairs, PairCosts(run), PairCosts(run + [r]));
  }

  lemma NewPairs(run: seq<Entry>, r: Entry, before: set<(nat, nat)>, items: set<nat>)
    requires forall p | p in before :: p.0 < |run| && p.1 < |run|
    requires forall i | i in items :: i < |run|
    ensures TallyOf(before + Paired(items, |run|), PairCosts(run + [r]))
         == Plus(TallyOf(before, PairCosts(run)), TallyOf(items, Costs(Bodies(run))))
  {
    PairsStay(run, r, before);
    PairsStay(run, r, Paired(items, |run|));
    TallyUnion(before, Paired(items, |run|), PairCosts(run + [r]));
    PairedTally(run, items, |run|);
  }

  lemma PairTallyGrows(run: seq<Entry>, r: Entry, before: set<(nat, nat)>, items: set<nat>, here: bool,
                       after: set<(nat, nat)>)
    requires forall p | p in before :: p.0 < |run| && p.1 < |run|
    requires forall i | i in items :: i < |run|
    requires after == before + (if here then Paired(items, |run|) else {})
    ensures TallyOf(after, PairCosts(run + [r]))
         == Plus(TallyOf(before, PairCosts(run)), if here then TallyOf(items, Costs(Bodies(run))) else NOTHING)
  {
    if here {
      NewPairs(run, r, before, items);
    } else {
      assert after == before;
      PairsStay(run, r, before);
      PlusNothing(TallyOf(before, PairCosts(run)));
    }
  }

  lemma AncestorRowStep(run: seq<Entry>, phase: string, r: Entry, caller: string, op: string)
    ensures AncestorRow(phase, caller, op)(run + [r])
         == Plus(AncestorRow(phase, caller, op)(run),
                 if r.span.op == caller then TallyOf(Nested(run, phase, r.span.id, op), Costs(Bodies(run)))
                 else NOTHING)
  {
    AncestorPairsGrow(run, phase, r, caller, op);
    PairTallyGrows(run, r, AncestorPairs(run, phase, caller, op), Nested(run, phase, r.span.id, op),
                   r.span.op == caller,
                   AncestorPairs(run + [r], phase, caller, op));
  }

  lemma DirectRowStep(run: seq<Entry>, phase: string, r: Entry, caller: string, op: string)
    ensures DirectRow(phase, caller, op)(run + [r])
         == Plus(DirectRow(phase, caller, op)(run),
                 if r.span.op == caller then TallyOf(Immediate(run, phase, r.span.id, op), Costs(Bodies(run)))
                 else NOTHING)
  {
    DirectPairsGrow(run, phase, r, caller, op);
    PairTallyGrows(run, r, DirectPairs(run, phase, caller, op), Immediate(run, phase, r.span.id, op),
                   r.span.op == caller,
                   DirectPairs(run + [r], phase, caller, op));
  }

  // ----- the whole log -----

  ghost predicate AncestorsAgree(table: map<(string, string), Tally>, runs: seq<seq<Entry>>, phase: string) {
    Live(table) && forall caller, op :: Get(table, (caller, op)) == Across(runs, AncestorRow(phase, caller, op))
  }

  ghost predicate DirectAgrees(table: map<(string, string), Tally>, runs: seq<seq<Entry>>, phase: string) {
    Live(table) && forall caller, op :: Get(table, (caller, op)) == Across(runs, DirectRow(phase, caller, op))
  }

  lemma AncestorsStep(table: map<(string, string), Tally>, runs: seq<seq<Entry>>, run: seq<Entry>,
                       phase: string, r: Entry, own: Waiting)
    requires AncestorsAgree(table, runs + [run], phase) && RowTracks(run, phase, r.span.id, own)
    ensures AncestorsAgree(WithEntries(table, r.span.op, own.nested), runs + [run + [r]], phase)
  {
    forall caller, op
      ensures Get(WithEntries(table, r.span.op, own.nested), (caller, op))
           == Across(runs + [run + [r]], AncestorRow(phase, caller, op))
    {
      EntryRows(table, r.span.op, own.nested, (caller, op));
      AncestorRowStep(run, phase, r, caller, op);
      AcrossStep(runs, run, run + [r], AncestorRow(phase, caller, op),
                 if caller == r.span.op then Get(own.nested, op) else NOTHING);
    }
  }

  lemma DirectStep(table: map<(string, string), Tally>, runs: seq<seq<Entry>>, run: seq<Entry>,
                    phase: string, r: Entry, own: Waiting)
    requires DirectAgrees(table, runs + [run], phase) && RowTracks(run, phase, r.span.id, own)
    ensures DirectAgrees(WithEntries(table, r.span.op, own.direct), runs + [run + [r]], phase)
  {
    forall caller, op
      ensures Get(WithEntries(table, r.span.op, own.direct), (caller, op))
           == Across(runs + [run + [r]], DirectRow(phase, caller, op))
    {
      EntryRows(table, r.span.op, own.direct, (caller, op));
      DirectRowStep(run, phase, r, caller, op);
      AcrossStep(runs, run, run + [r], DirectRow(phase, caller, op),
                 if caller == r.span.op then Get(own.direct, op) else NOTHING);
    }
  }

  /** An empty run adds nothing. */
  lemma EmptyRun(runs: seq<seq<Entry>>, phase: string, caller: string, op: string)
    ensures Across(runs + [[]], AncestorRow(phase, caller, op)) == Across(runs, AncestorRow(phase, caller, op))
    ensures Across(runs + [[]], DirectRow(phase, caller, op)) == Across(runs, DirectRow(phase, caller, op))
  {
    AcrossAppend(runs, [], AncestorRow(phase, caller, op));
    AcrossAppend(runs, [], DirectRow(phase, caller, op));
    TallyNone<(nat, nat)>(PairCosts([]));
    PlusSwap(Across(runs, AncestorRow(phase, caller, op)), NOTHING, NOTHING, NOTHING);
    PlusSwap(Across(runs, DirectRow(phase, caller, op)), NOTHING, NOTHING, NOTHING);
  }

  lemma NewRun(ancestors: map<(string, string), Tally>, direct: map<(string, string), Tally>,
                runs: seq<seq<Entry>>, phase: string)
    ensures AncestorsAgree(ancestors, runs + [[]], phase) <==> AncestorsAgree(ancestors, runs, phase)
    ensures DirectAgrees(direct, runs + [[]], phase) <==> DirectAgrees(direct, runs, phase)
    ensures Tracks([], phase, map[])
  {
    forall caller, op { EmptyRun(runs, phase, caller, op); }
  }

  ghost predicate Exact(ancestors: map<(string, string), Tally>, direct: map<(string, string), Tally>,
                        pending: map<int, Waiting>, runs: seq<seq<Entry>>, run: seq<Entry>, phase: string)
  {
    && AncestorsAgree(ancestors, runs + [run], phase) && DirectAgrees(direct, runs + [run], phase)
    && Tracks(run, phase, pending)
  }

  lemma RowStep(ancestors: map<(string, string), Tally>, direct: map<(string, string), Tally>,
                 pending: map<int, Waiting>, runs: seq<seq<Entry>>, run: seq<Entry>, phase: string, r: Entry)
    requires Exact(ancestors, direct, pending, runs, run, phase)
    ensures var own := Lookup(pending, r.span.id);
            Exact(WithEntries(ancestors, r.span.op, own.nested), WithEntries(direct, r.span.op, own.direct),
                  Passed(r, phase, pending), runs, run + [r], phase)
  {
    var own := Lookup(pending, r.span.id);
    LookupTracks(run, phase, pending, r.span.id);
    AncestorsStep(ancestors, runs, run, phase, r, own);
    DirectStep(direct, runs, run, phase, r, own);
    TracksAppend(run, phase, r, pending);
  }

  /** One row of the log, read after `run`, with the tables and `pending` exact before and after. */
  method ProcessRow(row: Entry, phase: string,
                    direct: map<(string, string), Tally>, ancestors: map<(string, string), Tally>,
                    pending: map<int, Waiting>, ghost runs: seq<seq<Entry>>, ghost run: seq<Entry>)
    returns (direct': map<(string, string), Tally>, ancestors': map<(string, string), Tally>,
             pending': map<int, Waiting>)
    requires Exact(ancestors, direct, pending, runs, run, phase)
    ensures Exact(ancestors', direct', pending', runs, run + [row], phase)
  {
    RowStep(ancestors, direct, pending, runs, run, phase, row);
    var popped := if row.span.id in pending then pending[row.span.id] else FRESH;
    pending' := pending - {row.span.id};
    ancestors' := AddEntries(ancestors, row.span.op, popped.nested);
    direct' := AddEntries(direct, row.span.op, popped.direct);
    var selected := row.phase == phase && row.span.op in OPERATIONS;
    if row.span.parent != 0 && (popped.nested != map[] || selected) {
      var state := if row.span.parent in pending' then pending'[row.span.parent] else FRESH;
      var into := Combine(state.nested, popped.nested);
      var child := state.direct;
      if selected {
        into := Add(into, row.span.op, Tally(1, row.span.elapsed));
        child := Add(child, row.span.op, Tally(1, row.span.elapsed));
      }
      pending' := pending'[row.span.parent := Waiting(into, child)];
    }
    assert pending' == Passed(row, phase, pending);
  }

  // ----- the loop over the log -----

  ghost function Unfinished(runs: seq<seq<Entry>>, phase: string): nat {
    if runs == [] then 0 else Unfinished(runs[..|runs| - 1], phase) + |Expecting(runs[|runs| - 1], phase)|
  }

  ghost function Closed(rows: seq<Entry>): seq<seq<Entry>> {
    if rows == [] then [] else Runs(rows)[..|Runs(rows)| - 1]
  }

  ghost function Current(rows: seq<Entry>): seq<Entry> {
    if rows == [] then [] else Runs(rows)[|Runs(rows)| - 1]
  }

  datatype State = State(direct: map<(string, string), Tally>, ancestors: map<(string, string), Tally>,
                         pending: map<int, Waiting>, unresolved: int)

  /** The loop variables once `rows` have been read. */
  ghost predicate Reached(st: State, rows: seq<Entry>, phase: string) {
    && Exact(st.ancestors, st.direct, st.pending, Closed(rows), Current(rows), phase)
    && st.unresolved == Unfinished(Closed(rows), phase)
  }

  lemma RunsAppend(rows: seq<Entry>, r: Entry)
    ensures Runs(rows + [r])
         == if rows != [] && rows[|rows| - 1].file == r.file then Closed(rows) + [Current(rows) + [r]]
            else Runs(rows) + [[r]]
  {
    assert (rows + [r])[..|rows|] == rows;
  }

  lemma RunsNext(rows: seq<Entry>, r: Entry)
    ensures var same := rows != [] && rows[|rows| - 1].file == r.file;
            && Closed(rows + [r]) == (if same || rows == [] then Closed(rows) else Closed(rows) + [Current(rows)])
            && Current(rows + [r]) == (if same then Current(rows) else []) + [r]
  {
    RunsAppend(rows, r);
    if rows == [] {
      assert [[r]][..0] == [];
    } else if rows[|rows| - 1].file == r.file {
      assert (Closed(rows) + [Current(rows) + [r]])[..|Closed(rows)|] == Closed(rows);
    } else {
      assert Runs(rows) == Closed(rows) + [Current(rows)];
      assert (Runs(rows) + [[r]])[..|Runs(rows)|] == Runs(rows);
    }
  }

  lemma UnfinishedNext(runs: seq<seq<Entry>>, run: seq<Entry>, phase: string)
    ensures Unfinished(runs + [run], phase) == Unfinished(runs, phase) + |Expecting(run, phase)|
    ensures |Expecting([], phase)| == 0
  {
    assert (runs + [run])[..|runs|] == runs;
    assert Expecting([], phase) == {};
  }

  lemma CloseRun(st: State, rows: seq<Entry>, phase: string)
    requires Reached(st, rows, phase) && rows != []
    ensures Exact(st.ancestors, st.direct, map[], Closed(rows) + [Current(rows)], [], phase)
    ensures st.unresolved + |st.pending| == Unfinished(Closed(rows) + [Current(rows)], phase)
  {
    NewRun(st.ancestors, st.direct, Closed(rows) + [Current(rows)], phase);
    UnfinishedNext(Closed(rows), Current(rows), phase);
  }

  lemma Finish(st: State, rows: seq<Entry>, phase: string)
    requires Reached(st, rows, phase)
    ensures AncestorsAgree(st.ancestors, Runs(rows), phase) && DirectAgrees(st.direct, Runs(rows), phase)
    ensures st.unresolved + |st.pending| == Unfinished(Runs(rows), phase)
  {
    UnfinishedNext(Closed(rows), Current(rows), phase);
    if rows == [] {
      NewRun(st.ancestors, st.direct, [], phase);
    } else {
      assert Runs(rows) == Closed(rows) + [Current(rows)];
    }
  }

  lemma Start(phase: string)
    ensures Reached(State(map[], map[], map[], 0), [], phase)
  {
    NewRun(map[], map[], [], phase);
  }

  /** One iteration: `current` is the file of the row before, if there was one. */
  method Iterate(st: State, log: seq<Entry>, n: nat, phase: string, current: Option<string>) returns (st': State)
    requires n < |log| && Reached(st, log[..n], phase)
    requires current == if n == 0 then None else Some(log[n - 1].file)
    ensures Reached(st', log[..n + 1], phase)
  {
    var row := log[n];
    ghost var rows := log[..n];
    assert log[..n + 1] == rows + [row];
    RunsNext(rows, row);
    var pending, unresolved := st.pending, st.unresolved;
    ghost var done, run := Closed(rows), Current(rows);
    if current != Some(row.file) {
      if rows != [] {
        CloseRun(st, rows, phase);
        done := done + [run];
      } else {
        UnfinishedNext([], [], phase);
        NewRun(st.ancestors, st.direct, [], phase);
      }
      run := [];
      unresolved := unresolved + |pending|;
      pending := map[];
    }
    assert Exact(st.ancestors, st.direct, pending, done, run, phase);
    assert Closed(rows + [row]) == done && Current(rows + [row]) == run + [row];
    var direct, ancestors;
    direct, ancestors, pending := ProcessRow(row, phase, st.direct, st.ancestors, pending, done, run);
    st' := State(direct, ancestors, pending, unresolved);
  }

  /** `callers`: the ancestor and direct tables, and the number of parents left waiting. */
  method Callers(rows: seq<Entry>, phase: string)
    returns (direct: map<(string, string), Tally>, ancestors: map<(string, string), Tally>, unresolved: int)
    ensures AncestorsAgree(ancestors, Runs(rows), phase)
    ensures DirectAgrees(direct, Runs(rows), phase)
    ensures unresolved == Unfinished(Runs(rows), phase)
  {
    var st := State(map[], map[], map[], 0);
    var current: Option<string> := None;
    Start(phase);
    for n := 0 to |rows|
      invariant current == if n == 0 then None else Some(rows[n - 1].file)
      invariant Reached(st, rows[..n], phase)
    {
      st := Iterate(st, rows, n, phase, current);
      current := Some(rows[n].file);
    }
    assert rows[..|rows|] == rows;
    Finish(st, rows, phase);
    direct, ancestors, unresolved := st.direct, st.ancestors, st.unresolved + |st.pending|;
  }

  /** The parents counted as unresolved are the missing ones with a selected event below them. */
  lemma ExpectingIsMissing(run: seq<Entry>, phase: string)
    ensures Expecting(run, phase) == MissingCallers(run, phase)
  {
    var s := Bodies(run);
    forall i: nat | i < |run|
      ensures Next(s, Front(s, i)).None? && (Front(s, i) == i || Ancestor(s, i, Front(s, i)))
      ensures forall k: nat | i <= k < |run| && Next(s, k).None? && (i == k || Ancestor(s, i, k)) :: k == Front(s, i)
    {
      TopIsFront(s, i);
    }
    forall p | p in Expecting(run, phase) ensures p in MissingCallers(run, phase) {
      var i: nat :| i < |run| && Chosen(run[i], phase) && Heading(run, i) != 0 && Heading(run, i) == p;
      assert Chosen(run[i], phase) && s[Front(s, i)].parent == p;
    }
  }

  lemma {:induction false} TopIsFront(s: seq<Span>, i: nat)
    requires i < |s|
    ensures Next(s, Front(s, i)).None? && (Front(s, i) == i || Ancestor(s, i, Front(s, i)))
    ensures forall k: nat | i <= k < |s| && Next(s, k).None? && (i == k || Ancestor(s, i, k)) :: k == Front(s, i)
    decreases |s| - i
  {
    FrontClimbs(s, i);
    if Next(s, i).Some? {
      var n := Next(s, i).value;
      TopIsFront(s, n);
      forall k: nat | i <= k < |s| && Next(s, k).None? && (i == k || Ancestor(s, i, k)) ensures k == Front(s, i) {
        AncestorsAreLater(s, n, k);
      }
    }
  }
}
