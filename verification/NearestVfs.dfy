/** Attribution of native events to their nearest VFS call: the per-record loop of the deep
    analysis, its `pending` map, and the closing "lost/doubled events" assertion.

    A native event travels up the recorded links inside `metrics` until a `vfs.*` span or a root
    credits it. On the way it is lost when a native span of the same name takes over its row, and
    it is stranded when the file ends before its parent completes. */
module NearestVfs {
  import opened Tallies
  import opened Spans

  predicate IsBoundary(e: Span) { IsVfs(e.op) || e.parent == 0 }

  function Owner(e: Span): string { if IsNative(e.op) then "(unscoped native)" else e.op }

  predicate IsMetadata(op: string) { op == "map.ea_read" || op == "map.read_once" || op == "map.write_once" }

  // ----- what the tables are meant to say -----

  /** The closest self-or-ancestor of i that is a VFS call or a root. */
  ghost function Capture(s: seq<Span>, i: nat): (r: Option<nat>)
    requires i < |s|
    ensures r.Some? ==> i <= r.value < |s| && IsBoundary(s[r.value])
    decreases |s| - i
  {
    if IsBoundary(s[i]) then Some(i) else
      match Next(s, i)
      case None => None
      case Some(j) => Capture(s, j)
  }

  /** A span named op lies above i, at or below the boundary that captures i. */
  ghost predicate Shadowed(s: seq<Span>, i: nat, op: string)
    requires i < |s|
    decreases |s| - i
  {
    && !IsBoundary(s[i])
    && Next(s, i).Some?
    && var j := Next(s, i).value; s[j].op == op || Shadowed(s, j, op)
  }

  /** The native events named op that belong to owner. */
  ghost function Owned(s: seq<Span>, owner: string, op: string): set<nat> {
    set i: nat | i < |s| && IsNative(s[i].op) && s[i].op == op && !Shadowed(s, i, op)
              && Capture(s, i).Some? && Owner(s[Capture(s, i).value]) == owner
  }

  /** j or a descendant of j read or wrote a regular file's metadata. */
  ghost predicate TouchesMetadata(s: seq<Span>, j: nat)
    requires j < |s|
  {
    exists i: nat :: i <= j && IsMetadata(s[i].op) && (i == j || Ancestor(s, i, j))
  }

  // ----- following one event through the stream -----

  datatype Fate = Waiting(at: nat) | Credited(last: nat) | Overwritten(last: nat)

  ghost function Arrive(e: Span, k: nat): Fate {
    if IsBoundary(e) then Credited(k) else Waiting(k)
  }

  /** Where a metric named op that reached span k is once all of s has been processed. */
  ghost function FateOf(s: seq<Span>, k: nat, op: string): (f: Fate)
    requires k < |s|
    ensures f.Waiting? ==> k <= f.at < |s| && !IsBoundary(s[f.at])
    ensures !f.Waiting? ==> k <= f.last < |s|
    decreases |s|
  {
    if k == |s| - 1 then Arrive(s[k], k) else
      var f := FateOf(s[..|s| - 1], k, op);
      if f.Waiting? && Links(s, f.at, |s| - 1)
      then if s[|s| - 1].op == op then Overwritten(|s| - 1) else Arrive(s[|s| - 1], |s| - 1)
      else f
  }

  lemma FateAppend(s: seq<Span>, e: Span, k: nat, op: string)
    requires k <= |s|
    ensures FateOf(s + [e], k, op)
         == if k == |s| then Arrive(e, |s|) else
              var f := FateOf(s, k, op);
              if f.Waiting? && s[f.at].parent == e.id
              then if e.op == op then Overwritten(|s|) else Arrive(e, |s|)
              else f
  {
    assert (s + [e])[..|s|] == s;
  }

  lemma {:induction false} FateClimbs(s: seq<Span>, k: nat, op: string)
    requires k < |s|
    ensures FateOf(s, k, op)
         == if IsBoundary(s[k]) then Credited(k) else
              match Next(s, k)
              case None => Waiting(k)
              case Some(j) => if s[j].op == op then Overwritten(j) else FateOf(s, j, op)
    decreases |s|
  {
    if k < |s| - 1 {
      var t := s[..|s| - 1];
      assert forall i: nat, j: nat | i < j < |t| :: Links(s, i, j) == Links(t, i, j);
      FateClimbs(t, k, op);
    }
  }

  /** The streamed fate is the one read off the ancestors. */
  lemma {:induction false} FateMeaning(s: seq<Span>, k: nat, op: string)
    requires k < |s|
    ensures var f := FateOf(s, k, op);
            && (f.Overwritten? <==> Shadowed(s, k, op))
            && (f.Credited? <==> Capture(s, k).Some? && !Shadowed(s, k, op))
            && (f.Credited? ==> Capture(s, k) == Some(f.last))
    decreases |s| - k
  {
    FateClimbs(s, k, op);
    if !IsBoundary(s[k]) && Next(s, k).Some? {
      FateMeaning(s, Next(s, k).value, op);
    }
  }

  lemma {:induction false} WaitingAtFront(s: seq<Span>, k: nat, op: string)
    requires k < |s| && FateOf(s, k, op).Waiting?
    ensures Front(s, k) == FateOf(s, k, op).at
    decreases |s|
  {
    if k < |s| - 1 {
      var t := s[..|s| - 1];
      WaitingAtFront(t, k, op);
    }
  }

  // ----- the records a table row stands for -----

  ghost predicate CreditedTo(s: seq<Span>, i: nat, owner: string, op: string)
    requires i < |s|
  {
    && IsNative(s[i].op) && s[i].op == op
    && FateOf(s, i, op).Credited? && Owner(s[FateOf(s, i, op).last]) == owner
  }

  ghost predicate ScopeAt(s: seq<Span>, j: nat, owner: string, regular: bool)
    requires j < |s|
  {
    IsBoundary(s[j]) && Owner(s[j]) == owner && TouchesMetadata(s, j) == regular
  }

  ghost function CreditedSet(s: seq<Span>, owner: string, op: string): set<nat> {
    set i: nat | i < |s| && CreditedTo(s, i, owner, op)
  }

  ghost function CreditedUnderSet(s: seq<Span>, keys: set<(string, string)>, op: string): set<nat> {
    set i: nat | i < |s| && IsNative(s[i].op) && s[i].op == op && FateOf(s, i, op).Credited?
              && (Owner(s[FateOf(s, i, op).last]), op) in keys
  }

  ghost function NativeSet(s: seq<Span>, op: string): set<nat> {
    set i: nat | i < |s| && IsNative(s[i].op) && s[i].op == op
  }

  ghost function LeftOverSet(s: seq<Span>, op: string): set<nat> {
    set i: nat | i < |s| && IsNative(s[i].op) && s[i].op == op && !FateOf(s, i, op).Credited?
  }

  ghost function ScopeSet(s: seq<Span>, owner: string, regular: bool): set<nat> {
    set j: nat | j < |s| && ScopeAt(s, j, owner, regular)
  }

  /** A table row: what it says of one file. */
  type Row = seq<Span> -> Tally

  ghost function NearestRow(owner: string, op: string): Row {
    (s: seq<Span>) => TallyOf(CreditedSet(s, owner, op), Costs(s))
  }

  ghost function CreditedUnder(keys: set<(string, string)>, op: string): Row {
    (s: seq<Span>) => TallyOf(CreditedUnderSet(s, keys, op), Costs(s))
  }

  ghost function NativeRow(op: string): Row { (s: seq<Span>) => TallyOf(NativeSet(s, op), Costs(s)) }

  ghost function LeftOver(op: string): Row { (s: seq<Span>) => TallyOf(LeftOverSet(s, op), Costs(s)) }

  ghost function ScopeRow(owner: string, regular: bool): Row {
    (s: seq<Span>) => TallyOf(ScopeSet(s, owner, regular), Costs(s))
  }

  /** The records of a nearest row, without the streaming. */
  lemma NearestRowIsOwned(s: seq<Span>, owner: string, op: string)
    ensures CreditedSet(s, owner, op) == Owned(s, owner, op)
  {
    forall i: nat | i < |s| && s[i].op == op
      ensures CreditedTo(s, i, owner, op) <==> i in Owned(s, owner, op)
    {
      FateMeaning(s, i, op);
    }
  }

  // ----- the tables in plain terms -----

  /** The native events named op whose nearest VFS call or root is called `caller`; the caller of those that
      only a native root captures is "(unscoped native)". */
  ghost function EventsUnder(s: seq<Span>, caller: string, op: string): set<nat> {
    set i: nat | i < |s| && "native." <= s[i].op && s[i].op == op && !Shadowed(s, i, op) && Capture(s, i).Some?
              && var name := s[Capture(s, i).value].op;
                 if "native." <= name then caller == "(unscoped native)" else caller == name
  }

  lemma CreditsArePlain(s: seq<Span>, owner: string, op: string)
    ensures CreditedSet(s, owner, op) == EventsUnder(s, owner, op)
  {
    NearestRowIsOwned(s, owner, op);
    forall i: nat ensures i in Owned(s, owner, op) <==> i in EventsUnder(s, owner, op) {}
  }

  /** The row of a VFS call holds the native events whose nearest VFS call or root has that name. */
  lemma VfsRowIsPlain(s: seq<Span>, v: string, op: string)
    requires "vfs." <= v
    ensures CreditedSet(s, v, op)
         == set i: nat | i < |s| && "native." <= s[i].op && s[i].op == op && !Shadowed(s, i, op)
                      && Capture(s, i).Some? && s[Capture(s, i).value].op == v
  {
    CreditsArePlain(s, v, op);
    VfsIsNotNative(v);
    assert v[0] != "(unscoped native)"[0];
  }

  lemma VfsIsNotNative(v: string)
    requires "vfs." <= v
    ensures !("native." <= v)
  {
    assert v[0] == 'v' && "native."[0] == 'n';
  }

  /** The row "(unscoped native)" holds the native events that a native root captures. */
  lemma UnscopedRowIsPlain(s: seq<Span>, op: string)
    requires forall j | 0 <= j < |s| :: s[j].op != "(unscoped native)"
    ensures CreditedSet(s, "(unscoped native)", op)
         == set i: nat | i < |s| && "native." <= s[i].op && s[i].op == op && !Shadowed(s, i, op)
                      && Capture(s, i).Some? && "native." <= s[Capture(s, i).value].op
  {
    CreditsArePlain(s, "(unscoped native)", op);
  }

  /** Record i is j or below it, and is one of the three operations on the metadata of regular files. */
  ghost predicate MetadataIn(s: seq<Span>, j: nat, i: nat)
    requires j < |s|
  {
    i <= j && s[i].op in {"map.ea_read", "map.read_once", "map.write_once"} && (i == j || Ancestor(s, i, j))
  }

  /** The VFS calls and roots called `caller`, by whether such an operation was seen in them or below. */
  ghost function CallsOf(s: seq<Span>, caller: string, regular: bool): set<nat> {
    set j: nat | j < |s| && ("vfs." <= s[j].op || s[j].parent == 0)
              && (if "native." <= s[j].op then caller == "(unscoped native)" else caller == s[j].op)
              && (regular <==> exists i: nat :: MetadataIn(s, j, i))
  }

  lemma ScopesArePlain(s: seq<Span>, owner: string, regular: bool)
    ensures ScopeSet(s, owner, regular) == CallsOf(s, owner, regular)
  {
    forall j: nat | j < |s| ensures TouchesMetadata(s, j) <==> exists i: nat :: MetadataIn(s, j, i) {
      if i: nat :| i <= j && IsMetadata(s[i].op) && (i == j || Ancestor(s, i, j)) {
        assert MetadataIn(s, j, i);
      }
      if i: nat :| MetadataIn(s, j, i) {
        assert IsMetadata(s[i].op);
      }
    }
  }

  ghost function EventsRow(caller: string, op: string): Row {
    (s: seq<Span>) => TallyOf(EventsUnder(s, caller, op), Costs(s))
  }

  ghost function CallsRow(caller: string, regular: bool): Row {
    (s: seq<Span>) => TallyOf(CallsOf(s, caller, regular), Costs(s))
  }

  /** j is i or above it. */
  ghost predicate AtOrAbove(s: seq<Span>, i: nat, j: nat)
    requires i < |s|
  {
    i == j || Ancestor(s, i, j)
  }

  /** On the way from i up to j, before j, there is no VFS call and no root. */
  ghost predicate Clear(s: seq<Span>, i: nat, j: nat)
    requires i < |s|
  {
    forall k: nat | i <= k < j && k < |s| && AtOrAbove(s, i, k) :: !("vfs." <= s[k].op) && s[k].parent != 0
  }

  lemma ClearNext(s: seq<Span>, i: nat, j: nat)
    requires i < |s| && Next(s, i).Some? && i < j
    ensures Clear(s, i, j) <==> !("vfs." <= s[i].op) && s[i].parent != 0 && Clear(s, Next(s, i).value, j)
  {
    var n := Next(s, i).value;
    forall k: nat | k < |s| ensures AtOrAbove(s, i, k) <==> k == i || AtOrAbove(s, n, k) {}
    forall k: nat | AtOrAbove(s, n, k) ensures k >= n {
      AncestorsAreLater(s, n, k);
    }
    assert AtOrAbove(s, i, i);
    assert Clear(s, i, j) ==> !("vfs." <= s[i].op) && s[i].parent != 0;
  }

  /** What captures an event is the first VFS call or root at or above it. */
  lemma {:induction false} CaptureIsClosest(s: seq<Span>, i: nat, j: nat)
    requires i < |s|
    ensures Capture(s, i) == Some(j) <==>
              j < |s| && AtOrAbove(s, i, j) && ("vfs." <= s[j].op || s[j].parent == 0) && Clear(s, i, j)
    decreases |s| - i
  {
    AncestorsAreLater(s, i, j);
    if IsBoundary(s[i]) {
      assert AtOrAbove(s, i, i);
    } else if Next(s, i).Some? {
      CaptureIsClosest(s, Next(s, i).value, j);
      if i < j {
        ClearNext(s, i, j);
      }
    }
  }

  ghost predicate ShadowedBy(s: seq<Span>, i: nat, op: string, j: nat)
    requires i < |s|
  {
    j < |s| && Ancestor(s, i, j) && s[j].op == op && Clear(s, i, j)
  }

  /** An event is shadowed if and only if a span of the name lies above it with no VFS call or root before it
      on the way up. */
  lemma {:induction false} ShadowIsBelowOwner(s: seq<Span>, i: nat, op: string)
    requires i < |s|
    ensures Shadowed(s, i, op) <==> exists j: nat :: ShadowedBy(s, i, op, j)
    decreases |s| - i
  {
    if Next(s, i).Some? {
      var n := Next(s, i).value;
      ShadowIsBelowOwner(s, n, op);
      ClearNext(s, i, n);
      forall k: nat | k < n ensures !AtOrAbove(s, n, k) {
        AncestorsAreLater(s, n, k);
      }
      assert Clear(s, n, n);
      forall j: nat | Ancestor(s, i, j)
        ensures i < j && (ShadowedBy(s, i, op, j) <==>
                  !IsBoundary(s[i]) && ((j == n && s[n].op == op) || (j != n && ShadowedBy(s, n, op, j))) )
      {
        AncestorsAreLater(s, i, j);
        AncestorsAreLater(s, n, j);
        ClearNext(s, i, j);
      }
      if Shadowed(s, i, op) {
        if s[n].op == op {
          assert ShadowedBy(s, i, op, n);
        } else {
          var j: nat :| ShadowedBy(s, n, op, j);
          AncestorsAreLater(s, n, j);
          assert ShadowedBy(s, i, op, j);
        }
      }
    }
  }

  // ----- one record -----

  /** Native events named op whose metric waits for parent p. */
  ghost function Stalled(s: seq<Span>, p: int, op: string): set<nat> {
    set i: nat | i < |s| && IsNative(s[i].op) && s[i].op == op
              && FateOf(s, i, op).Waiting? && s[FateOf(s, i, op).at].parent == p
  }

  /** What `metrics[op]` stands for when record e, just read after s, looks for its owner. */
  ghost function Arriving(s: seq<Span>, e: Span, op: string): set<nat> {
    if IsNative(e.op) && op == e.op then {|s|} else Stalled(s, e.id, op)
  }

  ghost function NewlyOwned(s: seq<Span>, e: Span, owner: string, op: string): set<nat> {
    if IsBoundary(e) && Owner(e) == owner then Arriving(s, e, op) else {}
  }

  lemma NearestRowGrows(s: seq<Span>, e: Span, owner: string, op: string)
    ensures CreditedSet(s, owner, op) !! NewlyOwned(s, e, owner, op)
    ensures CreditedSet(s + [e], owner, op) == CreditedSet(s, owner, op) + NewlyOwned(s, e, owner, op)
  {
    forall i: nat | i <= |s|
      ensures i in CreditedSet(s + [e], owner, op)
         <==> i in CreditedSet(s, owner, op) + NewlyOwned(s, e, owner, op)
    {
      FateAppend(s, e, i, op);
    }
  }

  lemma NearestRowAppend(s: seq<Span>, e: Span, owner: string, op: string)
    ensures NearestRow(owner, op)(s + [e])
         == Plus(NearestRow(owner, op)(s), TallyOf(NewlyOwned(s, e, owner, op), Costs(s + [e])))
  {
    NearestRowGrows(s, e, owner, op);
    Grown(s, e, CreditedSet(s, owner, op), NewlyOwned(s, e, owner, op), CreditedSet(s + [e], owner, op));
  }

  ghost function StillStalled(s: seq<Span>, e: Span, p: int, op: string): set<nat> {
    if p == e.id then {} else Stalled(s, p, op)
  }

  ghost function NewlyStalled(s: seq<Span>, e: Span, p: int, op: string): set<nat> {
    if !IsBoundary(e) && p == e.parent then Arriving(s, e, op) else {}
  }

  lemma StalledGrows(s: seq<Span>, e: Span, p: int, op: string)
    ensures StillStalled(s, e, p, op) !! NewlyStalled(s, e, p, op)
    ensures Stalled(s + [e], p, op) == StillStalled(s, e, p, op) + NewlyStalled(s, e, p, op)
  {
    forall i: nat | i <= |s|
      ensures i in Stalled(s + [e], p, op) <==> i in StillStalled(s, e, p, op) + NewlyStalled(s, e, p, op)
    {
      FateAppend(s, e, i, op);
    }
  }

  lemma StalledAppend(s: seq<Span>, e: Span, p: int, op: string)
    ensures TallyOf(Stalled(s + [e], p, op), Costs(s + [e]))
         == Plus(TallyOf(StillStalled(s, e, p, op), Costs(s)), TallyOf(NewlyStalled(s, e, p, op), Costs(s + [e])))
  {
    StalledGrows(s, e, p, op);
    Grown(s, e, StillStalled(s, e, p, op), NewlyStalled(s, e, p, op), Stalled(s + [e], p, op));
  }

  lemma NativeRowAppend(s: seq<Span>, e: Span, op: string)
    ensures NativeRow(op)(s + [e])
         == Plus(NativeRow(op)(s), if IsNative(e.op) && e.op == op then Tally(1, e.elapsed) else NOTHING)
  {
    assert NativeSet(s + [e], op)
        == NativeSet(s, op) + if IsNative(e.op) && e.op == op then {|s|} else {};
    GrownByOne(s, e, NativeSet(s, op), IsNative(e.op) && e.op == op, NativeSet(s + [e], op));
  }

  // ----- scopes -----

  lemma MetadataStable(s: seq<Span>, e: Span, j: nat)
    requires j < |s|
    ensures TouchesMetadata(s + [e], j) == TouchesMetadata(s, j)
  {
    forall i: nat | i < j ensures Ancestor(s + [e], i, j) == Ancestor(s, i, j) {
      AncestorStable(s, e, i, j);
    }
    if i: nat :| i <= j && IsMetadata(s[i].op) && (i == j || Ancestor(s, i, j)) {
      assert IsMetadata((s + [e])[i].op) && (i == j || Ancestor(s + [e], i, j));
    }
    if i: nat :| i <= j && IsMetadata((s + [e])[i].op) && (i == j || Ancestor(s + [e], i, j)) {
      assert IsMetadata(s[i].op) && (i == j || Ancestor(s, i, j));
    }
  }

  lemma MetadataArrives(s: seq<Span>, e: Span)
    ensures TouchesMetadata(s + [e], |s|)
       <==> IsMetadata(e.op) || exists i :: i in Below(s, e.id) && IsMetadata(s[i].op)
  {
    var t := s + [e];
    BelowIsAncestry(s, e);
    if i: nat :| i <= |s| && IsMetadata(t[i].op) && (i == |s| || Ancestor(t, i, |s|)) {
      assert i == |s| || (i in Below(s, e.id) && IsMetadata(s[i].op));
    }
    if i :| i in Below(s, e.id) && IsMetadata(s[i].op) {
      assert IsMetadata(t[i].op) && Ancestor(t, i, |s|);
    }
    if IsMetadata(e.op) {
      assert IsMetadata(t[|s|].op);
    }
  }

  ghost predicate ScopeHere(s: seq<Span>, e: Span, owner: string, regular: bool) {
    IsBoundary(e) && Owner(e) == owner && TouchesMetadata(s + [e], |s|) == regular
  }

  lemma ScopeRowGrows(s: seq<Span>, e: Span, owner: string, regular: bool)
    ensures ScopeSet(s + [e], owner, regular)
         == ScopeSet(s, owner, regular) + if ScopeHere(s, e, owner, regular) then {|s|} else {}
  {
    forall j: nat | j < |s| ensures ScopeAt(s + [e], j, owner, regular) == ScopeAt(s, j, owner, regular) {
      MetadataStable(s, e, j);
    }
    assert ScopeAt(s + [e], |s|, owner, regular) == ScopeHere(s, e, owner, regular);
  }

  lemma ScopeRowAppend(s: seq<Span>, e: Span, owner: string, regular: bool)
    ensures ScopeRow(owner, regular)(s + [e])
         == Plus(ScopeRow(owner, regular)(s),
                 if ScopeHere(s, e, owner, regular) then Tally(1, e.elapsed) else NOTHING)
  {
    ScopeRowGrows(s, e, owner, regular);
    GrownByOne(s, e, ScopeSet(s, owner, regular), ScopeHere(s, e, owner, regular),
               ScopeSet(s + [e], owner, regular));
  }

  // ----- the pending map -----

  datatype Pending = Pending(metrics: map<string, Tally>, regular: bool)

  const FRESH := Pending(map[], false)

  function Lookup(pending: map<int, Pending>, id: int): Pending {
    if id in pending then pending[id] else FRESH
  }

  ghost predicate RowTracks(s: seq<Span>, p: int, row: Pending) {
    && Live(row.metrics)
    && (forall op :: Get(row.metrics, op) == TallyOf(Stalled(s, p, op), Costs(s)))
    && (row.regular <==> exists i :: i in Below(s, p) && IsMetadata(s[i].op))
  }

  /** `pending` holds one row per awaited parent, carrying what has been seen below it. */
  ghost predicate Tracks(s: seq<Span>, pending: map<int, Pending>) {
    && pending.Keys == Awaited(s)
    && forall p | p in pending :: RowTracks(s, p, pending[p])
  }

  lemma NothingStalled(s: seq<Span>, p: int, op: string)
    requires p !in Awaited(s)
    ensures Stalled(s, p, op) == {}
  {
    AwaitedIffBelow(s, p);
    if i: nat :| i in Stalled(s, p, op) {
      WaitingAtFront(s, i, op);
    }
  }

  lemma LookupTracks(s: seq<Span>, pending: map<int, Pending>, p: int)
    requires Tracks(s, pending)
    ensures RowTracks(s, p, Lookup(pending, p))
  {
    if p !in pending {
      AwaitedIffBelow(s, p);
      forall op ensures Get(FRESH.metrics, op) == TallyOf(Stalled(s, p, op), Costs(s)) {
        NothingStalled(s, p, op);
      }
    }
  }

  /** The popped row once the record itself has been entered in it. */
  ghost predicate Gathered(s: seq<Span>, e: Span, own: Pending) {
    && Live(own.metrics)
    && (forall op :: Get(own.metrics, op) == TallyOf(Arriving(s, e, op), Costs(s + [e])))
    && (own.regular <==> TouchesMetadata(s + [e], |s|))
  }

  /** The row of `pending` under e's id, with e entered in it. */
  ghost function Gather(e: Span, pending: map<int, Pending>): Pending {
    var popped := Lookup(pending, e.id);
    Pending(if IsNative(e.op) then popped.metrics[e.op := Tally(1, e.elapsed)] else popped.metrics,
            popped.regular || IsMetadata(e.op))
  }

  lemma GatherTracks(s: seq<Span>, e: Span, pending: map<int, Pending>)
    requires Tracks(s, pending)
    ensures Gathered(s, e, Gather(e, pending))
  {
    LookupTracks(s, pending, e.id);
    MetadataArrives(s, e);
    var own := Gather(e, pending);
    forall op ensures Get(own.metrics, op) == TallyOf(Arriving(s, e, op), Costs(s + [e])) {
      if IsNative(e.op) && op == e.op {
        TallyOne<nat>(|s|, Costs(s + [e]));
      } else {
        TotalSame(Stalled(s, e.id, op), Costs(s), Costs(s + [e]));
      }
    }
  }

  /** What `pending` becomes when record e leaves it with `own`. */
  ghost function Passed(e: Span, pending: map<int, Pending>, own: Pending): map<int, Pending> {
    var rest := pending - {e.id};
    if e.parent == 0 then rest else
      var state := Lookup(rest, e.parent);
      rest[e.parent := Pending(Combined(state.metrics, HandedOn(e, own)), state.regular || own.regular)]
  }

  lemma AwaitedAppend(s: seq<Span>, e: Span)
    ensures Awaited(s + [e]) == Awaited(s) - {e.id} + if e.parent == 0 then {} else {e.parent}
  {
    forall p: int
      ensures p in Awaited(s + [e]) <==> p in Awaited(s) - {e.id} + if e.parent == 0 then {} else {e.parent}
    {
      AwaitedIffBelow(s + [e], p);
      AwaitedIffBelow(s, p);
      BelowAppend(s, e, p);
      if p != 0 && p == e.parent {
        assert |s| in Below(s + [e], p);
      }
    }
  }

  lemma UntouchedRow(s: seq<Span>, e: Span, p: int, row: Pending)
    requires RowTracks(s, p, row)
    requires p != 0 && p != e.id && p != e.parent
    ensures RowTracks(s + [e], p, row)
  {
    BelowAppend(s, e, p);
    forall op ensures Get(row.metrics, op) == TallyOf(Stalled(s + [e], p, op), Costs(s + [e])) {
      StalledAppend(s, e, p, op);
      assert NewlyStalled(s, e, p, op) == {};
    }
  }

  ghost function StillBelow(s: seq<Span>, e: Span): set<nat> {
    if e.parent == e.id then {} else Below(s, e.parent)
  }

  /** The row found for e's parent after e's own row was popped. */
  ghost predicate StateTracks(s: seq<Span>, e: Span, state: Pending) {
    && Live(state.metrics)
    && (forall op :: Get(state.metrics, op) == TallyOf(StillStalled(s, e, e.parent, op), Costs(s)))
    && (state.regular <==> exists i :: i in StillBelow(s, e) && IsMetadata(s[i].op))
  }

  ghost function HandedOn(e: Span, own: Pending): map<string, Tally> {
    if IsBoundary(e) then map[] else own.metrics
  }

  lemma HandedOnRows(s: seq<Span>, e: Span, own: Pending, op: string)
    requires Gathered(s, e, own)
    ensures Get(HandedOn(e, own), op) == TallyOf(NewlyStalled(s, e, e.parent, op), Costs(s + [e]))
  {
  }

  lemma ParentMetrics(s: seq<Span>, e: Span, state: Pending, own: Pending, op: string)
    requires StateTracks(s, e, state) && Gathered(s, e, own)
    ensures Get(Combined(state.metrics, HandedOn(e, own)), op)
         == TallyOf(Stalled(s + [e], e.parent, op), Costs(s + [e]))
  {
    var more := HandedOn(e, own);
    calc {
      Get(Combined(state.metrics, more), op);
      { CombinedRows(state.metrics, more, op); }
      Plus(Get(state.metrics, op), Get(more, op));
      { HandedOnRows(s, e, own, op); }
      Plus(TallyOf(StillStalled(s, e, e.parent, op), Costs(s)),
          TallyOf(NewlyStalled(s, e, e.parent, op), Costs(s + [e])));
      { StalledAppend(s, e, e.parent, op); }
      TallyOf(Stalled(s + [e], e.parent, op), Costs(s + [e]));
    }
  }

  lemma ParentRegular(s: seq<Span>, e: Span, state: Pending, own: Pending)
    requires StateTracks(s, e, state) && Gathered(s, e, own) && e.parent != 0
    ensures state.regular || own.regular
       <==> exists i :: i in Below(s + [e], e.parent) && IsMetadata((s + [e])[i].op)
  {
    var t := s + [e];
    MetadataArrives(s, e);
    BelowAppend(s, e, e.parent);
    assert Below(t, e.parent) == StillBelow(s, e) + Below(s, e.id) + {|s|};
    if i :| i in Below(t, e.parent) && IsMetadata(t[i].op) {
      assert i == |s| || IsMetadata(s[i].op);
    }
    if IsMetadata(e.op) {
      assert IsMetadata(t[|s|].op);
    }
    if i :| i in StillBelow(s, e) + Below(s, e.id) && IsMetadata(s[i].op) {
      assert i in Below(t, e.parent) && IsMetadata(t[i].op);
    }
  }

  lemma ParentRow(s: seq<Span>, e: Span, state: Pending, own: Pending)
    requires StateTracks(s, e, state) && Gathered(s, e, own) && e.parent != 0
    ensures RowTracks(s + [e], e.parent,
                      Pending(Combined(state.metrics, HandedOn(e, own)), state.regular || own.regular))
  {
    forall op
      ensures Get(Combined(state.metrics, HandedOn(e, own)), op)
           == TallyOf(Stalled(s + [e], e.parent, op), Costs(s + [e]))
    {
      ParentMetrics(s, e, state, own, op);
    }
    ParentRegular(s, e, state, own);
    assert Live(Combined(state.metrics, HandedOn(e, own)));
  }

  lemma TracksAppend(s: seq<Span>, e: Span, pending: map<int, Pending>, own: Pending)
    requires Tracks(s, pending) && Gathered(s, e, own)
    ensures Tracks(s + [e], Passed(e, pending, own))
  {
    AwaitedAppend(s, e);
    var after := Passed(e, pending, own);
    forall p | p in after ensures RowTracks(s + [e], p, after[p]) {
      if p == e.parent {
        ParentTracks(s, e, pending, own);
      } else {
        UntouchedRow(s, e, p, pending[p]);
      }
    }
  }

  lemma ParentTracks(s: seq<Span>, e: Span, pending: map<int, Pending>, own: Pending)
    requires Tracks(s, pending) && Gathered(s, e, own) && e.parent != 0
    ensures RowTracks(s + [e], e.parent, Passed(e, pending, own)[e.parent])
  {
    LookupTracks(s, pending, e.parent);
    ParentRow(s, e, Lookup(pending - {e.id}, e.parent), own);
  }

  // ----- what is still pending -----

  ghost function WaitingSet(s: seq<Span>, op: string): set<nat> {
    set i: nat | i < |s| && IsNative(s[i].op) && s[i].op == op && FateOf(s, i, op).Waiting?
  }

  ghost function OverwrittenSet(s: seq<Span>, op: string): set<nat> {
    set i: nat | i < |s| && IsNative(s[i].op) && s[i].op == op && FateOf(s, i, op).Overwritten?
  }

  ghost function WaitingRow(op: string): Row { (s: seq<Span>) => TallyOf(WaitingSet(s, op), Costs(s)) }

  ghost function OverwrittenRow(op: string): Row { (s: seq<Span>) => TallyOf(OverwrittenSet(s, op), Costs(s)) }

  /** The metrics named op in all rows of `pending`, added up. */
  ghost function Held(pending: map<int, Pending>, op: string): Tally {
    SumOver(pending.Keys, p => Get(Lookup(pending, p).metrics, op))
  }

  /** Whose row the metric of event i waits in. */
  ghost function HeldBy(s: seq<Span>, op: string): nat -> int {
    (i: nat) => if i < |s| && FateOf(s, i, op).Waiting? then s[FateOf(s, i, op).at].parent else 0
  }

  lemma WaitingIsAwaited(s: seq<Span>, i: nat, op: string)
    requires i in WaitingSet(s, op)
    ensures HeldBy(s, op)(i) in Awaited(s)
  {
    var p := HeldBy(s, op)(i);
    WaitingAtFront(s, i, op);
    assert i in Below(s, p);
    AwaitedIffBelow(s, p);
  }

  lemma WaitingGroups(s: seq<Span>, op: string)
    ensures InGroups(WaitingSet(s, op), HeldBy(s, op), Awaited(s)) == WaitingSet(s, op)
    ensures forall p :: InGroups(WaitingSet(s, op), HeldBy(s, op), {p}) == Stalled(s, p, op)
  {
    forall i | i in WaitingSet(s, op) ensures HeldBy(s, op)(i) in Awaited(s) {
      WaitingIsAwaited(s, i, op);
    }
    forall p ensures InGroups(WaitingSet(s, op), HeldBy(s, op), {p}) == Stalled(s, p, op) {
      forall i: nat ensures i in InGroups(WaitingSet(s, op), HeldBy(s, op), {p}) <==> i in Stalled(s, p, op) {}
    }
  }

  /** The metrics in `pending` are those of the events that still wait, on every stream. */
  lemma HeldIsWaiting(s: seq<Span>, pending: map<int, Pending>, op: string)
    requires Tracks(s, pending)
    ensures Held(pending, op) == WaitingRow(op)(s)
  {
    var value := p => Get(Lookup(pending, p).metrics, op);
    WaitingGroups(s, op);
    forall p | p in pending.Keys
      ensures value(p) == TallyOf(InGroups(WaitingSet(s, op), HeldBy(s, op), {p}), Costs(s))
    {
      assert RowTracks(s, p, pending[p]);
    }
    GroupsSum(pending.Keys, WaitingSet(s, op), HeldBy(s, op), Costs(s), value);
  }
}
