/** The tables of the deep analysis over a whole run, and its closing exactness assertion. */
module DeepAnalysis {
  import opened Tallies
  import opened Spans
  import opened NearestVfs

  /** The records of a file that start inside the install phase. */
  ghost function Window(records: seq<Span>, begin: int, end: int): seq<Span> {
    if records == [] then [] else
      var last := records[|records| - 1];
      Window(records[..|records| - 1], begin, end) + if begin <= last.start <= end then [last] else []
  }

  method HandUp(pending: map<int, Pending>, parent: int, metrics: map<string, Tally>, regular: bool)
    returns (result: map<int, Pending>)
    ensures var state := Lookup(pending, parent);
            result == pending[parent := Pending(Combined(state.metrics, metrics), state.regular || regular)]
  {
    var state := if parent in pending then pending[parent] else FRESH;
    var merged := Combine(state.metrics, metrics);
    result := pending[parent := Pending(merged, state.regular || regular)];
  }

  // ----- the tables against the records -----

  ghost predicate NearestAgrees(nearest: map<(string, string), Tally>, files: seq<seq<Span>>) {
    Live(nearest) && forall owner, op :: Get(nearest, (owner, op)) == Across(files, NearestRow(owner, op))
  }

  ghost predicate TotalsAgree(totals: map<string, Tally>, files: seq<seq<Span>>) {
    Live(totals) && forall op :: Get(totals, op) == Across(files, NativeRow(op))
  }

  ghost predicate ScopesAgree(scopes: map<(string, bool), Tally>, files: seq<seq<Span>>) {
    Live(scopes) && forall owner, regular :: Get(scopes, (owner, regular)) == Across(files, ScopeRow(owner, regular))
  }

  lemma NewFile(files: seq<seq<Span>>, row: Row)
    requires row([]) == NOTHING
    ensures Across(files + [[]], row) == Across(files, row)
  {
    AcrossAppend(files, [], row);
    PlusSwap(Across(files, row), NOTHING, NOTHING, NOTHING);
  }

  ghost function NearestAfter(nearest: map<(string, string), Tally>, e: Span, own: Pending)
    : map<(string, string), Tally>
  {
    if IsBoundary(e) then WithEntries(nearest, Owner(e), own.metrics) else nearest
  }

  lemma NewlyOwnedTally(s: seq<Span>, e: Span, own: Pending, owner: string, op: string)
    requires Get(own.metrics, op) == TallyOf(Arriving(s, e, op), Costs(s + [e]))
    ensures TallyOf(NewlyOwned(s, e, owner, op), Costs(s + [e]))
         == if IsBoundary(e) && Owner(e) == owner then Get(own.metrics, op) else NOTHING
  {
    TallyNone<nat>(Costs(s + [e]));
  }

  lemma NearestStep(nearest: map<(string, string), Tally>, files: seq<seq<Span>>, s: seq<Span>, e: Span, own: Pending)
    requires NearestAgrees(nearest, files + [s]) && Gathered(s, e, own)
    ensures NearestAgrees(NearestAfter(nearest, e, own), files + [s + [e]])
  {
    var after := NearestAfter(nearest, e, own);
    forall owner, op ensures Get(after, (owner, op)) == Across(files + [s + [e]], NearestRow(owner, op)) {
      EntryRowsIf(nearest, IsBoundary(e), Owner(e), own.metrics, (owner, op));
      NewlyOwnedTally(s, e, own, owner, op);
      NearestRowAppend(s, e, owner, op);
      AcrossStep(files, s, s + [e], NearestRow(owner, op), TallyOf(NewlyOwned(s, e, owner, op), Costs(s + [e])));
    }
    assert Live(after);
  }

  ghost function TotalsAfter(totals: map<string, Tally>, e: Span): map<string, Tally> {
    if IsNative(e.op) then Add(totals, e.op, Tally(1, e.elapsed)) else totals
  }

  lemma TotalsStep(totals: map<string, Tally>, files: seq<seq<Span>>, s: seq<Span>, e: Span)
    requires TotalsAgree(totals, files + [s])
    ensures TotalsAgree(TotalsAfter(totals, e), files + [s + [e]])
  {
    forall op ensures Get(TotalsAfter(totals, e), op) == Across(files + [s + [e]], NativeRow(op)) {
      var more := if IsNative(e.op) && e.op == op then Tally(1, e.elapsed) else NOTHING;
      NativeRowAppend(s, e, op);
      AcrossStep(files, s, s + [e], NativeRow(op), more);
      PlusSwap(Get(totals, op), NOTHING, NOTHING, NOTHING);
    }
  }

  ghost function ScopesAfter(scopes: map<(string, bool), Tally>, e: Span, own: Pending): map<(string, bool), Tally> {
    if IsBoundary(e) then Add(scopes, (Owner(e), own.regular), Tally(1, e.elapsed)) else scopes
  }

  lemma ScopeRowStep(scopes: map<(string, bool), Tally>, e: Span, own: Pending, owner: string, regular: bool)
    ensures Get(ScopesAfter(scopes, e, own), (owner, regular))
         == Plus(Get(scopes, (owner, regular)),
                 if IsBoundary(e) && Owner(e) == owner && own.regular == regular then Tally(1, e.elapsed) else NOTHING)
  {
    PlusSwap(Get(scopes, (owner, regular)), NOTHING, NOTHING, NOTHING);
    AddRow(scopes, (Owner(e), own.regular), Tally(1, e.elapsed), (owner, regular));
  }

  lemma ScopesStep(scopes: map<(string, bool), Tally>, files: seq<seq<Span>>, s: seq<Span>, e: Span, own: Pending)
    requires ScopesAgree(scopes, files + [s]) && Gathered(s, e, own)
    ensures ScopesAgree(ScopesAfter(scopes, e, own), files + [s + [e]])
  {
    var after := ScopesAfter(scopes, e, own);
    forall owner, regular ensures Get(after, (owner, regular)) == Across(files + [s + [e]], ScopeRow(owner, regular)) {
      var here := IsBoundary(e) && Owner(e) == owner && own.regular == regular;
      assert here == ScopeHere(s, e, owner, regular);
      ScopeRowStep(scopes, e, own, owner, regular);
      ScopeRowAppend(s, e, owner, regular);
      AcrossStep(files, s, s + [e], ScopeRow(owner, regular), if here then Tally(1, e.elapsed) else NOTHING);
    }
    assert Live(after);
  }

  // ----- exactness -----

  /** The native event i of a file is credited to an owner, and not lost or stranded on the way. */
  ghost predicate Attributed(s: seq<Span>, i: nat)
    requires i < |s|
  {
    Capture(s, i).Some? && !Shadowed(s, i, s[i].op)
  }

  ghost predicate AllAttributed(files: seq<seq<Span>>) {
    forall g: nat, i: nat | g < |files| && i < |files[g]| && IsNative(files[g][i].op) :: Attributed(files[g], i)
  }

  /** `attributed` sums the nearest rows whose keys are in `done`. */
  ghost predicate CreditsAgree(attributed: map<string, Tally>, files: seq<seq<Span>>, done: set<(string, string)>) {
    Live(attributed) && forall op :: Get(attributed, op) == Across(files, CreditedUnder(done, op))
  }

  lemma NoCredits(files: seq<seq<Span>>)
    ensures CreditsAgree(map[], files, {})
  {
    forall op ensures Across(files, CreditedUnder({}, op)) == NOTHING {
      forall s: seq<Span> | s in files ensures CreditedUnder({}, op)(s) == NOTHING {
        TallyEmpty(CreditedUnderSet(s, {}, op), Costs(s));
      }
      AcrossNothing(files, CreditedUnder({}, op));
    }
  }

  lemma CreditSplit(s: seq<Span>, done: set<(string, string)>, key: (string, string))
    requires key !in done
    ensures CreditedUnder(done + {key}, key.1)(s) == Plus(CreditedUnder(done, key.1)(s), NearestRow(key.0, key.1)(s))
  {
    assert key == (key.0, key.1);
    var before, more := CreditedUnderSet(s, done, key.1), CreditedSet(s, key.0, key.1);
    assert CreditedUnderSet(s, done + {key}, key.1) == before + more;
    TallyUnion(before, more, Costs(s));
  }

  lemma CreditOther(s: seq<Span>, done: set<(string, string)>, key: (string, string), op: string)
    requires key.1 != op
    ensures CreditedUnder(done + {key}, op)(s) == CreditedUnder(done, op)(s)
  {
    assert CreditedUnderSet(s, done + {key}, op) == CreditedUnderSet(s, done, op);
  }

  lemma CreditStep(files: seq<seq<Span>>, done: set<(string, string)>, key: (string, string), op: string)
    requires key !in done
    ensures Across(files, CreditedUnder(done + {key}, op))
         == Plus(Across(files, CreditedUnder(done, op)),
                 if op == key.1 then Across(files, NearestRow(key.0, op)) else NOTHING)
  {
    if key.1 == op {
      forall s: seq<Span> | s in files { CreditSplit(s, done, key); }
      AcrossSplit(files, CreditedUnder(done + {key}, op), CreditedUnder(done, op), NearestRow(key.0, op));
    } else {
      forall s: seq<Span> | s in files { CreditOther(s, done, key, op); }
      AcrossSame(files, CreditedUnder(done + {key}, op), CreditedUnder(done, op));
      PlusSwap(Across(files, CreditedUnder(done, op)), NOTHING, NOTHING, NOTHING);
    }
  }

  lemma CreditsStep(attributed: map<string, Tally>, files: seq<seq<Span>>, done: set<(string, string)>,
      key: (string, string), row: Tally)
    requires CreditsAgree(attributed, files, done)
    requires key !in done && row.count > 0 && row == Across(files, NearestRow(key.0, key.1))
    ensures CreditsAgree(Add(attributed, key.1, row), files, done + {key})
  {
    forall op ensures Get(Add(attributed, key.1, row), op) == Across(files, CreditedUnder(done + {key}, op)) {
      CreditStep(files, done, key, op);
      AddRow(attributed, key.1, row, op);
    }
    assert Get(attributed, key.1).count >= 0;
  }

  lemma RowHasEvent(files: seq<seq<Span>>, s: seq<Span>, owner: string, op: string)
    requires s in files && CreditedSet(s, owner, op) != {}
    ensures Across(files, NearestRow(owner, op)).count > 0
  {
    forall p: seq<Span> | p in files ensures Sound(NearestRow(owner, op)(p)) {
      TallyEmpty(CreditedSet(p, owner, op), Costs(p));
    }
    AcrossPositive(files, NearestRow(owner, op), s);
  }

  lemma LeftOverCounts(files: seq<seq<Span>>, op: string)
    ensures Sound(Across(files, LeftOver(op)))
    ensures Across(files, LeftOver(op)).count == 0 <==> forall s: seq<Span> | s in files :: LeftOverSet(s, op) == {}
  {
    var row := LeftOver(op);
    forall s: seq<Span> | s in files ensures Sound(row(s)) && (row(s).count == 0 <==> LeftOverSet(s, op) == {}) {
      TallyEmpty(LeftOverSet(s, op), Costs(s));
    }
    AcrossSound(files, row);
    if s: seq<Span> :| s in files && LeftOverSet(s, op) != {} {
      AcrossPositive(files, row, s);
    } else {
      AcrossNothing(files, row);
    }
  }

  /** Every credited event has a row, so all rows together and the leftovers are all native events. */
  lemma FileSplits(nearest: map<(string, string), Tally>, files: seq<seq<Span>>, s: seq<Span>, op: string)
    requires NearestAgrees(nearest, files) && s in files
    ensures NativeRow(op)(s) == Plus(CreditedUnder(nearest.Keys, op)(s), LeftOver(op)(s))
  {
    forall i: nat | i < |s| && IsNative(s[i].op) && s[i].op == op && FateOf(s, i, op).Credited?
      ensures (Owner(s[FateOf(s, i, op).last]), op) in nearest.Keys
    {
      var owner := Owner(s[FateOf(s, i, op).last]);
      assert i in CreditedSet(s, owner, op);
      RowHasEvent(files, s, owner, op);
      assert Get(nearest, (owner, op)).count != 0;
    }
    var credited, left := CreditedUnderSet(s, nearest.Keys, op), LeftOverSet(s, op);
    assert NativeSet(s, op) == credited + left;
    TallyUnion(credited, left, Costs(s));
  }

  lemma CreditsAndLeftovers(nearest: map<(string, string), Tally>, files: seq<seq<Span>>, op: string)
    requires NearestAgrees(nearest, files)
    ensures Across(files, NativeRow(op))
         == Plus(Across(files, CreditedUnder(nearest.Keys, op)), Across(files, LeftOver(op)))
  {
    forall s: seq<Span> | s in files { FileSplits(nearest, files, s, op); }
    AcrossSplit(files, NativeRow(op), CreditedUnder(nearest.Keys, op), LeftOver(op));
  }

  lemma LeftoverIffUnattributed(files: seq<seq<Span>>)
    ensures AllAttributed(files) <==> forall op :: Across(files, LeftOver(op)).count == 0
  {
    forall op
      ensures Across(files, LeftOver(op)).count == 0 <==> forall s: seq<Span> | s in files :: LeftOverSet(s, op) == {}
    {
      LeftOverCounts(files, op);
    }
    forall g: nat, i: nat | g < |files| && i < |files[g]| && IsNative(files[g][i].op)
      ensures Attributed(files[g], i) <==> i !in LeftOverSet(files[g], files[g][i].op)
    {
      FateMeaning(files[g], i, files[g][i].op);
    }
    if !AllAttributed(files) {
      var g: nat, i: nat :| g < |files| && i < |files[g]| && IsNative(files[g][i].op) && !Attributed(files[g], i);
      assert files[g] in files && i in LeftOverSet(files[g], files[g][i].op);
      assert Across(files, LeftOver(files[g][i].op)).count != 0;
    }
    if AllAttributed(files) {
      forall op ensures Across(files, LeftOver(op)).count == 0 {
        forall s: seq<Span> | s in files ensures LeftOverSet(s, op) == {} {
          var g: nat :| g < |files| && files[g] == s;
        }
      }
    }
  }

  lemma LiveTablesEqual<K(!new)>(a: map<K, Tally>, b: map<K, Tally>)
    requires Live(a) && Live(b)
    ensures a == b <==> forall k :: Get(a, k) == Get(b, k)
  {
    if forall k :: Get(a, k) == Get(b, k) {
      forall k ensures k in a <==> k in b {
        assert Get(a, k) == Get(b, k);
      }
      forall k | k in a ensures a[k] == b[k] {
        assert Get(a, k) == Get(b, k);
      }
    }
  }

  lemma ExactRow(nearest: map<(string, string), Tally>, totals: map<string, Tally>, credits: map<string, Tally>,
      files: seq<seq<Span>>, op: string)
    requires NearestAgrees(nearest, files)
    requires Get(totals, op) == Across(files, NativeRow(op))
    requires Get(credits, op) == Across(files, CreditedUnder(nearest.Keys, op))
    ensures Get(credits, op) == Get(totals, op) <==> Across(files, LeftOver(op)).count == 0
  {
    CreditsAndLeftovers(nearest, files, op);
    LeftOverCounts(files, op);
    PlusZero(Get(credits, op), Across(files, LeftOver(op)));
  }

  lemma ExactIffAllAttributed(nearest: map<(string, string), Tally>, totals: map<string, Tally>,
            credits: map<string, Tally>, files: seq<seq<Span>>)
    requires NearestAgrees(nearest, files) && TotalsAgree(totals, files)
    requires CreditsAgree(credits, files, nearest.Keys)
    ensures credits == totals <==> AllAttributed(files)
  {
    LiveTablesEqual(credits, totals);
    LeftoverIffUnattributed(files);
    forall op ensures Get(credits, op) == Get(totals, op) <==> Across(files, LeftOver(op)).count == 0 {
      ExactRow(nearest, totals, credits, files, op);
    }
  }

  // ----- what is credited, pending and lost -----

  ghost function RowsFor(done: set<(string, string)>, op: string): set<(string, string)> {
    set k | k in done && k.1 == op
  }

  /** The nearest rows of one operation, added up over the owners. */
  ghost function Credits(nearest: map<(string, string), Tally>, op: string): Tally {
    SumOver(RowsFor(nearest.Keys, op), k => Get(nearest, k))
  }

  lemma {:induction false} RowsSum(nearest: map<(string, string), Tally>, files: seq<seq<Span>>,
                                   done: set<(string, string)>, op: string,
                                   value: ((string, string)) -> Tally)
    requires NearestAgrees(nearest, files) && forall k :: value(k) == Get(nearest, k)
    ensures SumOver(RowsFor(done, op), value) == Across(files, CreditedUnder(done, op))
    decreases done
  {
    if done == {} {
      NoCredits(files);
      assert RowsFor(done, op) == {};
    } else {
      var key :| key in done;
      var rest := done - {key};
      assert done == rest + {key};
      RowsSum(nearest, files, rest, op, value);
      CreditStep(files, rest, key, op);
      NextRow(nearest, files, rest, key, op, value);
    }
  }

  lemma NextRow(nearest: map<(string, string), Tally>, files: seq<seq<Span>>, rest: set<(string, string)>,
                 key: (string, string), op: string, value: ((string, string)) -> Tally)
    requires NearestAgrees(nearest, files) && key !in rest && value(key) == Get(nearest, key)
    ensures SumOver(RowsFor(rest + {key}, op), value)
         == Plus(SumOver(RowsFor(rest, op), value),
                 if op == key.1 then Across(files, NearestRow(key.0, op)) else NOTHING)
  {
    if key.1 == op {
      assert RowsFor(rest + {key}, op) == RowsFor(rest, op) + {key};
      SumOverWith(RowsFor(rest, op), key, value);
      assert Get(nearest, (key.0, key.1)) == Across(files, NearestRow(key.0, key.1));
    } else {
      assert RowsFor(rest + {key}, op) == RowsFor(rest, op);
    }
  }

  lemma CreditsAreCredited(nearest: map<(string, string), Tally>, files: seq<seq<Span>>, op: string)
    requires NearestAgrees(nearest, files)
    ensures Credits(nearest, op) == Across(files, CreditedUnder(nearest.Keys, op))
  {
    RowsSum(nearest, files, nearest.Keys, op, k => Get(nearest, k));
  }

  ghost function HeldRow(op: string): map<int, Pending> -> Tally { pending => Held(pending, op) }

  /** left[k] is what was pending when file k had been read, or has been read so far. */
  ghost predicate AllTrack(files: seq<seq<Span>>, left: seq<map<int, Pending>>) {
    |left| == |files| && forall k | 0 <= k < |files| :: Tracks(files[k], left[k])
  }

  lemma {:induction false} AllHeld(files: seq<seq<Span>>, left: seq<map<int, Pending>>, op: string)
    requires AllTrack(files, left)
    ensures Across(left, HeldRow(op)) == Across(files, WaitingRow(op))
  {
    if files != [] {
      var n := |files| - 1;
      assert AllTrack(files[..n], left[..n]);
      AllHeld(files[..n], left[..n], op);
      assert Tracks(files[n], left[n]);
      HeldIsWaiting(files[n], left[n], op);
    }
  }

  lemma LeftOverSplits(s: seq<Span>, op: string)
    ensures LeftOver(op)(s) == Plus(WaitingRow(op)(s), OverwrittenRow(op)(s))
  {
    assert LeftOverSet(s, op) == WaitingSet(s, op) + OverwrittenSet(s, op);
    TallyUnion(WaitingSet(s, op), OverwrittenSet(s, op), Costs(s));
  }

  /** All native time is in the nearest rows, or still in some `pending`, or was overwritten. */
  ghost predicate Balanced(nearest: map<(string, string), Tally>, totals: map<string, Tally>, files: seq<seq<Span>>,
                           left: seq<map<int, Pending>>) {
    forall op ::
      Get(totals, op) == Plus(Plus(Credits(nearest, op), Across(left, HeldRow(op))), Across(files, OverwrittenRow(op)))
  }

  /** Conservation, on any streams: after every record, and between files. */
  lemma TablesBalance(nearest: map<(string, string), Tally>, totals: map<string, Tally>, files: seq<seq<Span>>,
                       left: seq<map<int, Pending>>)
    requires NearestAgrees(nearest, files) && TotalsAgree(totals, files) && AllTrack(files, left)
    ensures Balanced(nearest, totals, files, left)
  {
    forall op
      ensures Get(totals, op)
              == Plus(Plus(Credits(nearest, op), Across(left, HeldRow(op))), Across(files, OverwrittenRow(op)))
    {
      RowBalances(nearest, files, left, op);
      assert Get(totals, op) == Across(files, NativeRow(op));
    }
  }

  lemma RowBalances(nearest: map<(string, string), Tally>, files: seq<seq<Span>>, left: seq<map<int, Pending>>,
      op: string)
    requires NearestAgrees(nearest, files) && AllTrack(files, left)
    ensures Across(files, NativeRow(op))
         == Plus(Plus(Credits(nearest, op), Across(left, HeldRow(op))), Across(files, OverwrittenRow(op)))
  {
    CreditsAndLeftovers(nearest, files, op);
    CreditsAreCredited(nearest, files, op);
    forall s: seq<Span> | s in files { LeftOverSplits(s, op); }
    AcrossSplit(files, LeftOver(op), WaitingRow(op), OverwrittenRow(op));
    AllHeld(files, left, op);
    PlusSwap(Credits(nearest, op), Across(left, HeldRow(op)), Across(files, OverwrittenRow(op)), NOTHING);
  }

  ghost predicate NothingShadowed(files: seq<seq<Span>>, op: string) {
    forall s: seq<Span>, i: nat | s in files && i < |s| && IsNative(s[i].op) && s[i].op == op :: !Shadowed(s, i, op)
  }

  /** Without a same-named span above on the way to an owner, nothing is overwritten. */
  lemma NothingIsOverwritten(files: seq<seq<Span>>, op: string)
    requires NothingShadowed(files, op)
    ensures Across(files, OverwrittenRow(op)) == NOTHING
  {
    forall s: seq<Span> | s in files ensures OverwrittenRow(op)(s) == NOTHING {
      forall i: nat | i < |s| && IsNative(s[i].op) && s[i].op == op ensures !FateOf(s, i, op).Overwritten? {
        FateMeaning(s, i, op);
      }
      assert OverwrittenSet(s, op) == {};
      TallyNone<nat>(Costs(s));
    }
    AcrossNothing(files, OverwrittenRow(op));
  }

  /** So then credits and what is still pending are all native time. */
  lemma CreditsAndPending(nearest: map<(string, string), Tally>, totals: map<string, Tally>, files: seq<seq<Span>>,
                           left: seq<map<int, Pending>>, op: string)
    requires Balanced(nearest, totals, files, left) && NothingShadowed(files, op)
    ensures Get(totals, op) == Plus(Credits(nearest, op), Across(left, HeldRow(op)))
  {
    NothingIsOverwritten(files, op);
    PlusSwap(Plus(Credits(nearest, op), Across(left, HeldRow(op))), NOTHING, NOTHING, NOTHING);
  }

  lemma RowsAreSound(files: seq<seq<Span>>, op: string)
    ensures Sound(Across(files, WaitingRow(op))) && Sound(Across(files, OverwrittenRow(op)))
  {
    forall s: seq<Span> | s in files ensures Sound(WaitingRow(op)(s)) && Sound(OverwrittenRow(op)(s)) {
      TallyEmpty(WaitingSet(s, op), Costs(s));
      TallyEmpty(OverwrittenSet(s, op), Costs(s));
    }
    AcrossSound(files, WaitingRow(op));
    AcrossSound(files, OverwrittenRow(op));
  }

  /** Nothing named op is left in any `pending`, and nothing was overwritten. */
  ghost predicate NothingLeft(files: seq<seq<Span>>, left: seq<map<int, Pending>>, op: string) {
    Across(left, HeldRow(op)) == NOTHING && Across(files, OverwrittenRow(op)) == NOTHING
  }

  lemma LeftOverIsNothing(files: seq<seq<Span>>, left: seq<map<int, Pending>>, op: string)
    requires AllTrack(files, left)
    ensures Across(files, LeftOver(op)).count == 0 <==> NothingLeft(files, left, op)
  {
    forall s: seq<Span> | s in files { LeftOverSplits(s, op); }
    AcrossSplit(files, LeftOver(op), WaitingRow(op), OverwrittenRow(op));
    AllHeld(files, left, op);
    RowsAreSound(files, op);
    PlusSound(Across(files, WaitingRow(op)), Across(files, OverwrittenRow(op)));
  }

  /** All events are attributed exactly when neither `pending` nor overwriting keeps anything back. */
  lemma AttributedIffNothingLeft(files: seq<seq<Span>>, left: seq<map<int, Pending>>)
    requires AllTrack(files, left)
    ensures AllAttributed(files) <==> forall op :: NothingLeft(files, left, op)
  {
    LeftoverIffUnattributed(files);
    forall op ensures Across(files, LeftOver(op)).count == 0 <==> NothingLeft(files, left, op) {
      LeftOverIsNothing(files, left, op);
    }
  }

  // ----- the run -----

  /** What the tables say, without the functions that compute them. */
  lemma TablesArePlain(nearest: map<(string, string), Tally>, scopes: map<(string, bool), Tally>, files: seq<seq<Span>>)
    requires NearestAgrees(nearest, files) && ScopesAgree(scopes, files)
    ensures forall caller, op :: Get(nearest, (caller, op)) == Across(files, EventsRow(caller, op))
    ensures forall caller, regular :: Get(scopes, (caller, regular)) == Across(files, CallsRow(caller, regular))
  {
    forall caller, op ensures Get(nearest, (caller, op)) == Across(files, EventsRow(caller, op)) {
      forall s: seq<Span> | s in files ensures NearestRow(caller, op)(s) == EventsRow(caller, op)(s) {
        CreditsArePlain(s, caller, op);
      }
      AcrossSame(files, NearestRow(caller, op), EventsRow(caller, op));
    }
    forall caller, regular ensures Get(scopes, (caller, regular)) == Across(files, CallsRow(caller, regular)) {
      forall s: seq<Span> | s in files ensures ScopeRow(caller, regular)(s) == CallsRow(caller, regular)(s) {
        ScopesArePlain(s, caller, regular);
      }
      AcrossSame(files, ScopeRow(caller, regular), CallsRow(caller, regular));
    }
  }

  /** The window holds the records that start in it, as often as they are there, and no others. */
  lemma {:induction false} WindowIsPlain(records: seq<Span>, begin: int, end: int, e: Span)
    ensures multiset(Window(records, begin, end))[e]
         == if begin <= e.start && e.start <= end then multiset(records)[e] else 0
    decreases |records|
  {
    if records != [] {
      var before, last := records[..|records| - 1], records[|records| - 1];
      assert records == before + [last];
      WindowIsPlain(before, begin, end, e);
    }
  }

  /** It keeps their order: the window of a prefix is a prefix of the window. */
  lemma {:induction false} WindowKeepsOrder(records: seq<Span>, n: int, begin: int, end: int)
    requires 0 <= n <= |records|
    ensures Window(records[..n], begin, end) <= Window(records, begin, end)
    decreases |records|
  {
    if n < |records| {
      assert records[..n] == records[..|records| - 1][..n];
      WindowKeepsOrder(records[..|records| - 1], n, begin, end);
    } else {
      assert records[..n] == records;
    }
  }

  /** Where the record loop stands. */
  datatype Progress = Progress(nearest: map<(string, string), Tally>, totals: map<string, Tally>,
                               scopes: map<(string, bool), Tally>, pending: map<int, Pending>)

  ghost function Step(at: Progress, e: Span): Progress {
    var own := Gather(e, at.pending);
    Progress(NearestAfter(at.nearest, e, own), TotalsAfter(at.totals, e), ScopesAfter(at.scopes, e, own),
             Passed(e, at.pending, own))
  }

  /** The record loop over s, after earlier files have left the tables as they are in `before`. */
  ghost function Reading(before: Progress, s: seq<Span>): Progress {
    if s == [] then before.(pending := map[]) else Step(Reading(before, s[..|s| - 1]), s[|s| - 1])
  }

  lemma ReadingNext(before: Progress, records: seq<Span>, begin: int, end: int, n: int)
    requires 0 <= n < |records|
    ensures Reading(before, Window(records[..n + 1], begin, end))
         == if begin <= records[n].start <= end then Step(Reading(before, Window(records[..n], begin, end)), records[n])
            else Reading(before, Window(records[..n], begin, end))
  {
    WindowNext(records, n, begin, end);
    var s := Window(records[..n], begin, end);
    assert (s + [records[n]])[..|s|] == s && s + [] == s;
  }

  ghost predicate AllAgree(at: Progress, files: seq<seq<Span>>) {
    NearestAgrees(at.nearest, files) && TotalsAgree(at.totals, files) && ScopesAgree(at.scopes, files)
  }

  /** After every record the tables are exact and `pending` is in step. */
  lemma {:induction false} ReadingIsExact(before: Progress, files: seq<seq<Span>>, s: seq<Span>)
    requires AllAgree(before, files)
    ensures AllAgree(Reading(before, s), files + [s]) && Tracks(s, Reading(before, s).pending)
    decreases |s|
  {
    if s == [] {
      StartFile(files, before.nearest, before.totals, before.scopes);
    } else {
      var t, e := s[..|s| - 1], s[|s| - 1];
      assert s == t + [e];
      ReadingIsExact(before, files, t);
      var at := Reading(before, t);
      RecordStep(at.nearest, at.totals, at.scopes, files, t, e, at.pending);
    }
  }

  /** After every record credits, what is pending and what was overwritten are all native time. */
  lemma ReadingBalances(before: Progress, files: seq<seq<Span>>, left: seq<map<int, Pending>>, s: seq<Span>)
    requires AllAgree(before, files) && AllTrack(files, left)
    ensures var at := Reading(before, s);
            AllTrack(files + [s], left + [at.pending])
                && Balanced(at.nearest, at.totals, files + [s], left + [at.pending])
  {
    ReadingIsExact(before, files, s);
    var at := Reading(before, s);
    FileBalances(at.nearest, at.totals, files, left, s, at.pending);
  }

  class Analysis {
    var nearest: map<(string, string), Tally>
    var nativeTotals: map<string, Tally>
    var scopes: map<(string, bool), Tally>
    var unresolved: nat
    ghost var files: seq<seq<Span>>
    ghost var left: seq<map<int, Pending>>

    ghost function At(pending: map<int, Pending>): Progress
      reads this
    {
      Progress(nearest, nativeTotals, scopes, pending)
    }

    /** Every row is the exact tally of its records over the files read so far. */
    ghost predicate Valid()
      reads this
    {
      AllAgree(At(map[]), files) && unresolved == AwaitedOver(files) && AllTrack(files, left)
    }

    constructor ()
      ensures Valid() && files == []
    {
      nearest, nativeTotals, scopes, unresolved := map[], map[], map[], 0;
      files, left := [], [];
    }

    /** One iteration of the record loop; `after` is the new `pending`. */
    method ProcessRecord(e: Span, pending: map<int, Pending>) returns (after: map<int, Pending>)
      modifies `nearest, `nativeTotals, `scopes
      ensures At(after) == Step(old(At(pending)), e)
    {
      after := pending;
      var metrics: map<string, Tally>, regular := map[], false;
      if e.id in after {
        metrics, regular := after[e.id].metrics, after[e.id].regular;
        after := after - {e.id};
      }
      assert after == pending - {e.id};
      if IsNative(e.op) {
        metrics := metrics[e.op := Tally(1, e.elapsed)];
        nativeTotals := Add(nativeTotals, e.op, Tally(1, e.elapsed));
      }
      if IsMetadata(e.op) {
        regular := true;
      }
      ghost var own := Gather(e, pending);
      assert own == Pending(metrics, regular);
      if IsVfs(e.op) || e.parent == 0 {
        var owner := if !IsNative(e.op) then e.op else "(unscoped native)";
        nearest := AddEntries(nearest, owner, metrics);
        scopes := Add(scopes, (owner, regular), Tally(1, e.elapsed));
        metrics := map[];
      }
      assert metrics == HandedOn(e, own);
      if e.parent != 0 {
        after := HandUp(after, e.parent, metrics, regular);
      }
    }

    /** One file: its records in the window are read, and what is pending then is left behind. */
    method ProcessFile(records: seq<Span>, begin: int, end: int)
      requires Valid()
      modifies this
      ensures Valid()
      ensures files == old(files) + [Window(records, begin, end)]
      ensures Balanced(nearest, nativeTotals, files, left)
      ensures forall caller, op :: Get(nearest, (caller, op)) == Across(files, EventsRow(caller, op))
      ensures forall caller, regular :: Get(scopes, (caller, regular)) == Across(files, CallsRow(caller, regular))
    {
      ghost var s := Window(records, begin, end);
      ReadingIsExact(At(map[]), files, s);
      ReadingBalances(At(map[]), files, left, s);
      var pending := ReadFile(records, begin, end);
      unresolved := unresolved + |pending|;
      files, left := files + [s], left + [pending];
      assert files[..|files| - 1] == old(files) && |pending| == |pending.Keys|;
      TablesArePlain(nearest, scopes, files);
    }

    /** The record loop. */
    method ReadFile(records: seq<Span>, begin: int, end: int) returns (pending: map<int, Pending>)
      modifies `nearest, `nativeTotals, `scopes
      ensures At(pending) == Reading(old(At(map[])), Window(records, begin, end))
    {
      pending := map[];
      for n := 0 to |records|
        invariant At(pending) == Reading(old(At(map[])), Window(records[..n], begin, end))
      {
        ReadingNext(old(At(map[])), records, begin, end, n);
        if !(begin <= records[n].start <= end) {
          continue;
        }
        pending := ProcessRecord(records[n], pending);
      }
      assert records[..|records|] == records;
    }

    /** The check that ends the attribution: it holds exactly when no native event was lost or stranded. */
    method AttributionExact() returns (exact: bool)
      requires Valid()
      ensures exact <==> AllAttributed(files)
      ensures exact <==> forall op :: NothingLeft(files, left, op)
    {
      var attributed: map<string, Tally> := map[];
      var todo := nearest.Keys;
      NoCredits(files);
      assert nearest.Keys - todo == {};
      while todo != {}
        invariant todo <= nearest.Keys
        invariant CreditsAgree(attributed, files, nearest.Keys - todo)
        decreases todo
      {
        var key :| key in todo;
        NearestKey(nearest, files, key);
        CreditsStep(attributed, files, nearest.Keys - todo, key, nearest[key]);
        assert nearest.Keys - (todo - {key}) == (nearest.Keys - todo) + {key};
        attributed := Add(attributed, key.1, nearest[key]);
        todo := todo - {key};
      }
      assert nearest.Keys - todo == nearest.Keys;
      ExactIffAllAttributed(nearest, nativeTotals, attributed, files);
      AttributedIffNothingLeft(files, left);
      exact := attributed == nativeTotals;
    }
  }

  lemma FileBalances(nearest: map<(string, string), Tally>, totals: map<string, Tally>, files: seq<seq<Span>>,
                      left: seq<map<int, Pending>>, s: seq<Span>, pending: map<int, Pending>)
    requires NearestAgrees(nearest, files + [s]) && TotalsAgree(totals, files + [s])
    requires AllTrack(files, left) && Tracks(s, pending)
    ensures AllTrack(files + [s], left + [pending])
    ensures Balanced(nearest, totals, files + [s], left + [pending])
  {
    TablesBalance(nearest, totals, files + [s], left + [pending]);
  }

  lemma NearestKey(nearest: map<(string, string), Tally>, files: seq<seq<Span>>, key: (string, string))
    requires NearestAgrees(nearest, files) && key in nearest
    ensures nearest[key].count > 0 && nearest[key] == Across(files, NearestRow(key.0, key.1))
  {
    assert Get(nearest, (key.0, key.1)) == Across(files, NearestRow(key.0, key.1));
  }

  lemma WindowNext(records: seq<Span>, n: nat, begin: int, end: int)
    requires n < |records|
    ensures Window(records[..n + 1], begin, end)
         == Window(records[..n], begin, end) + if begin <= records[n].start <= end then [records[n]] else []
  {
    assert records[..n + 1][..n] == records[..n];
  }

  lemma RecordStep(nearest: map<(string, string), Tally>, totals: map<string, Tally>,
                   scopes: map<(string, bool), Tally>,
      files: seq<seq<Span>>, s: seq<Span>, e: Span, pending: map<int, Pending>)
    requires NearestAgrees(nearest, files + [s]) && TotalsAgree(totals, files + [s]) && ScopesAgree(scopes, files + [s])
    requires Tracks(s, pending)
    ensures var own := Gather(e, pending);
            && NearestAgrees(NearestAfter(nearest, e, own), files + [s + [e]])
            && TotalsAgree(TotalsAfter(totals, e), files + [s + [e]])
            && ScopesAgree(ScopesAfter(scopes, e, own), files + [s + [e]])
            && Tracks(s + [e], Passed(e, pending, own))
  {
    var own := Gather(e, pending);
    GatherTracks(s, e, pending);
    NearestStep(nearest, files, s, e, own);
    TotalsStep(totals, files, s, e);
    ScopesStep(scopes, files, s, e, own);
    TracksAppend(s, e, pending, own);
  }

  lemma StartFile(files: seq<seq<Span>>, nearest: map<(string, string), Tally>, totals: map<string, Tally>,
      scopes: map<(string, bool), Tally>)
    requires NearestAgrees(nearest, files) && TotalsAgree(totals, files) && ScopesAgree(scopes, files)
    ensures NearestAgrees(nearest, files + [[]]) && TotalsAgree(totals, files + [[]])
            && ScopesAgree(scopes, files + [[]])
    ensures Tracks([], map[])
  {
    forall owner, op ensures Get(nearest, (owner, op)) == Across(files + [[]], NearestRow(owner, op)) {
      TallyNone<nat>(Costs([]));
      NewFile(files, NearestRow(owner, op));
    }
    forall op ensures Get(totals, op) == Across(files + [[]], NativeRow(op)) {
      TallyNone<nat>(Costs([]));
      NewFile(files, NativeRow(op));
    }
    forall owner, regular ensures Get(scopes, (owner, regular)) == Across(files + [[]], ScopeRow(owner, regular)) {
      TallyNone<nat>(Costs([]));
      NewFile(files, ScopeRow(owner, regular));
    }
  }

  // ----- traces on which the check fails -----

  function Record(id: int, parent: int, op: string): Span {
    Event(id, parent, 0, 1, 0, 0, 0, 0, 1, 1, 0, op, "")
  }

  /** A native event directly below one of the same name. */
  const NESTED := [Record(3, 2, "native.X"), Record(2, 1, "native.X"), Record(1, 0, "vfs.open")]

  /** A native event whose parent never completes. */
  const STRANDED := [Record(2, 1, "native.X")]

  lemma {:induction false} AllInWindow(records: seq<Span>)
    requires forall e | e in records :: e.start == 0
    ensures Window(records, 0, 0) == records
  {
    if records != [] {
      AllInWindow(records[..|records| - 1]);
    }
  }

  lemma NativeIsNotVfs()
    ensures !IsVfs("native.X") && IsVfs("vfs.open")
  {
    assert "native.X"[0] != "vfs."[0];
  }

  /** The inner event is overwritten. */
  lemma NestedIsShadowed()
    ensures Capture(NESTED, 0).Some? && Shadowed(NESTED, 0, "native.X")
  {
    NativeIsNotVfs();
    assert Next(NESTED, 0) == Some(1) by { assert Links(NESTED, 0, 1); }
    assert Next(NESTED, 1) == Some(2) by { assert Links(NESTED, 1, 2); }
  }

  /** The event has no owner. */
  lemma StrandedIsNotCaptured()
    ensures Capture(STRANDED, 0) == None
  {
    NativeIsNotVfs();
  }

  /** Both files fail the closing assertion of the analysis. */
  method CheckFails(nested: bool) returns (exact: bool)
    ensures !exact
  {
    var records := if nested then NESTED else STRANDED;
    NestedIsShadowed();
    StrandedIsNotCaptured();
    AllInWindow(records);
    var analysis := new Analysis();
    analysis.ProcessFile(records, 0, 0);
    assert analysis.files[0] == records && IsNative(records[0].op) && !Attributed(records, 0);
    exact := analysis.AttributionExact();
  }
}
