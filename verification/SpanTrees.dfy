/** Files written by well-behaved tracers: a grove of spans, each recorded after its children. The
    streamed tables are then what one reads off the grove from the roots down. */
module SpanTrees {
  import opened Tallies
  import opened Spans
  import NearestVfs
  import DeepAnalysis

  /** Spans side by side: the earlier ones, and the last one with its children. */
  datatype Grove = Bare | Grown(earlier: Grove, span: Span, children: Grove)

  /** The records of a grove in the order of completion. */
  ghost function Written(g: Grove): seq<Span> {
    match g
    case Bare => []
    case Grown(earlier, e, children) => Written(earlier) + Written(children) + [e]
  }

  /** Each span carries its parent's id, and the outermost ones p. */
  ghost predicate Linked(g: Grove, p: int) {
    match g
    case Bare => true
    case Grown(earlier, e, children) => Linked(earlier, p) && e.parent == p && e.id != 0 && Linked(children, e.id)
  }

  ghost predicate Distinct(s: seq<Span>) {
    forall i, j | 0 <= i < j < |s| :: s[i].id != s[j].id
  }

  ghost predicate Trace(g: Grove) { Linked(g, 0) && Distinct(Written(g)) }

  // ----- a grove is written as a forest without missing parents -----

  ghost predicate Later(s: seq<Span>, i: int, id: int)
    requires 0 <= i
  {
    exists j :: i < j < |s| && s[j].id == id
  }

  ghost predicate Placed(s: seq<Span>, k: int, g: Grove) {
    0 <= k && k + |Written(g)| <= |s| && s[k..k + |Written(g)|] == Written(g)
  }

  /** The places of a grove's parts. */
  lemma {:induction false} PlacedParts(s: seq<Span>, k: int, g: Grove)
    requires g.Grown? && Placed(s, k, g)
    ensures var m := k + |Written(g.earlier)|;
            var i := m + |Written(g.children)|;
            Placed(s, k, g.earlier) && Placed(s, m, g.children) && 0 <= i < |s| && s[i] == g.span
                && i + 1 == k + |Written(g)|
  {
    var w, m := Written(g), k + |Written(g.earlier)|;
    var i := m + |Written(g.children)|;
    assert s[k..i + 1] == w;
    assert w[..m - k] == Written(g.earlier) && w[m - k..i - k] == Written(g.children) && w[i - k] == g.span;
    SliceOfSlice(s, k, i + 1, 0, m - k);
    SliceOfSlice(s, k, i + 1, m - k, i - k);
    assert s[i] == w[i - k];
  }

  lemma SliceOfSlice(s: seq<Span>, a: int, b: int, x: int, y: int)
    requires 0 <= a <= b <= |s| && 0 <= x <= y <= b - a
    ensures s[a..b][x..y] == s[a + x..a + y]
  {
    assert forall i | 0 <= i < y - x :: s[a..b][x..y][i] == s[a + x..a + y][i];
  }

  lemma {:induction false} ParentsFollow(s: seq<Span>, k: int, g: Grove, p: int, i: int)
    requires Placed(s, k, g) && Linked(g, p) && k <= i < k + |Written(g)|
    ensures s[i].id != 0 && (s[i].parent == p || Later(s, i, s[i].parent))
    decreases g
  {
    var m := k + |Written(g.earlier)|;
    var n := m + |Written(g.children)|;
    PlacedParts(s, k, g);
    if i < m {
      ParentsFollow(s, k, g.earlier, p, i);
    } else if i < n {
      ParentsFollow(s, m, g.children, g.span.id, i);
      assert s[n].id == g.span.id;
    }
  }

  lemma ParentIsThere(g: Grove, i: nat) returns (m: nat)
    requires Trace(g) && i < |Written(g)|
    ensures Written(g)[i].id != 0
    ensures Written(g)[i].parent != 0 ==> i < m < |Written(g)| && Written(g)[m].id == Written(g)[i].parent
  {
    ParentsFollow(Written(g), 0, g, 0, i);
    m := 0;
    if Written(g)[i].parent != 0 {
      m :| i < m < |Written(g)| && Written(g)[m].id == Written(g)[i].parent;
    }
  }

  /** The records of a grove are a forest, and every parent is there. */
  lemma TracesAreForests(g: Grove)
    requires Trace(g)
    ensures Forest(Written(g))
    ensures forall i: nat | i < |Written(g)| :: Written(g)[i].parent == 0 || Next(Written(g), i).Some?
  {
    var s := Written(g);
    forall i | 0 <= i < |s| ensures s[i].id != 0 {
      var m := ParentIsThere(g, i);
    }
    forall i, j | 0 <= j <= i < |s| ensures s[i].parent != s[j].id {
      var m := ParentIsThere(g, i);
      if s[i].parent != 0 {
        assert s[j].id != s[m].id;
      }
    }
    forall i: nat | i < |s| ensures s[i].parent == 0 || Next(s, i).Some? {
      var m := ParentIsThere(g, i);
      if s[i].parent != 0 {
        ForestParent(s, i, m);
      }
    }
  }

  /** So every record has an owner. */
  lemma {:induction false} EveryRecordIsCaptured(g: Grove, i: nat)
    requires Trace(g) && i < |Written(g)|
    ensures NearestVfs.Capture(Written(g), i).Some?
    decreases |Written(g)| - i
  {
    TracesAreForests(g);
    if !NearestVfs.IsBoundary(Written(g)[i]) {
      EveryRecordIsCaptured(g, Next(Written(g), i).value);
    }
  }

  /** On such files the attribution is exact if and only if no native event lies, within the reach of its
      owner, below a span of the same name. */
  lemma ExactIffNothingNested(groves: seq<Grove>, files: seq<seq<Span>>)
    requires |files| == |groves| && forall k | 0 <= k < |files| :: Trace(groves[k]) && files[k] == Written(groves[k])
    ensures DeepAnalysis.AllAttributed(files)
       <==> forall k: nat, i: nat | k < |files| && i < |files[k]| && IsNative(files[k][i].op) ::
              !NearestVfs.Shadowed(files[k], i, files[k][i].op)
  {
    forall k: nat, i: nat | k < |files| && i < |files[k]| ensures NearestVfs.Capture(files[k], i).Some? {
      assert Trace(groves[k]) && files[k] == Written(groves[k]);
      EveryRecordIsCaptured(groves[k], i);
    }
    forall k: nat, i: nat | k < |files| && i < |files[k]|
      ensures DeepAnalysis.Attributed(files[k], i) <==> !NearestVfs.Shadowed(files[k], i, files[k][i].op) {}
  }

  // ----- the attribution from the roots down -----

  /** What a record tells those below it: who owns it, and the names on the way down from the owner. */
  datatype Context = Context(owner: Option<string>, names: seq<string>)

  const TOP := Context(None, [])

  ghost function Below(e: Span, above: Context): Context {
    if "vfs." <= e.op
        || e.parent == 0 then Context(Some(if "native." <= e.op then "(unscoped native)" else e.op), [e.op])
    else Context(above.owner, above.names + [e.op])
  }

  ghost predicate Counts(e: Span, above: Context, owner: string, op: string) {
    && "native." <= e.op && e.op == op
    && if "vfs." <= e.op || e.parent == 0 then owner == (if "native." <= e.op then "(unscoped native)" else e.op)
       else above.owner == Some(owner) && op !in above.names
  }

  ghost function Own(e: Span, above: Context, owner: string, op: string): Tally {
    if Counts(e, above, owner, op) then Tally(1, e.elapsed) else NOTHING
  }

  /** The sum over a grove of what each record is worth, when every record hands its children something
      that depends on what it was handed itself. */
  ghost function Sum<C, V>(g: Grove, told: C, hand: (Span, C) -> C, worth: (Span, C) -> V,
                           zero: V, plus: (V, V) -> V): V {
    match g
    case Bare => zero
    case Grown(earlier, e, children) =>
      plus(plus(Sum(earlier, told, hand, worth, zero, plus), Sum(children, hand(e, told), hand, worth, zero, plus)),
           worth(e, told))
  }

  /** The native events named op in the grove that belong to owner. */
  ghost function Attributed(g: Grove, owner: string, op: string): Tally {
    Sum(g, TOP, Below, (e, above) => Own(e, above, owner, op), NOTHING, Plus)
  }

  ghost function Size(g: Grove): nat {
    match g
    case Bare => 0
    case Grown(earlier, _, children) => Size(earlier) + Size(children) + 1
  }

  lemma {:induction false} SizeIsLength(g: Grove)
    ensures |Written(g)| == Size(g)
  {
    if g.Grown? {
      SizeIsLength(g.earlier);
      SizeIsLength(g.children);
    }
  }

  // ----- the same sum over the records in order -----

  /** totals sums own over the records up to each place. */
  ghost predicate Sums<V(!new)>(totals: int -> V, own: int -> V, plus: (V, V) -> V) {
    forall i {:trigger own(i)} :: totals(i + 1) == plus(totals(i), own(i))
  }

  ghost predicate Additive<V(!new)>(zero: V, plus: (V, V) -> V) {
    (forall a, b, c :: plus(plus(a, b), c) == plus(a, plus(b, c))) && forall a :: plus(a, zero) == a
  }

  /** How a record can hang in a grove: at i, as a root or below the record at j. */
  type Hang = (int, Span, bool, int) -> bool

  /** The records of the grove are those from k on. */
  ghost predicate Lies(hang: Hang, k: int, g: Grove, root: bool, j: int)
    decreases g
  {
    match g
    case Bare => true
    case Grown(earlier, e, children) =>
      var m := k + Size(earlier);
      var i := m + Size(children);
      hang(i, e, root, j) && Lies(hang, k, earlier, root, j) && Lies(hang, m, children, false, i)
  }

  ghost function Heard<C>(top: C, tells: int -> C, root: bool, j: int): C { if root then top else tells(j) }

  /** What a record tells, and what it is worth, follows from what it is told. */
  ghost predicate Consistent<C(!new), V>(hang: Hang, top: C, tells: int -> C, own: int -> V,
                                         hand: (Span, C) -> C, worth: (Span, C) -> V) {
    forall i, e, root, j | hang(i, e, root, j) ::
      tells(i) == hand(e, Heard(top, tells, root, j)) && own(i) == worth(e, Heard(top, tells, root, j))
  }

  /** The running sum over two stretches and one more record. */
  lemma StretchesAdd<V(!new)>(totals: int -> V, own: int -> V, zero: V, plus: (V, V) -> V, k: int, m: int, i: int,
                         a: V, b: V, c: V)
    requires Additive(zero, plus) && Sums(totals, own, plus) && totals(m) == plus(totals(k), a)
             && totals(i) == plus(totals(m), b)
             && own(i) == c
    ensures totals(i + 1) == plus(totals(k), plus(plus(a, b), c))
  {
    var t := totals(k);
    assert plus(plus(t, a), b) == plus(t, plus(a, b));
    assert plus(plus(t, plus(a, b)), c) == plus(t, plus(plus(a, b), c));
  }

  lemma LastIsWorth<C(!new), V>(hang: Hang, top: C, tells: int -> C, own: int -> V,
                        hand: (Span, C) -> C, worth: (Span, C) -> V, i: int, e: Span, root: bool, j: int)
    requires Consistent(hang, top, tells, own, hand, worth) && hang(i, e, root, j)
    ensures Heard(top, tells, false, i) == hand(e, Heard(top, tells, root, j))
            && own(i) == worth(e, Heard(top, tells, root, j))
  {
  }

  /** Every record from k on is worth what it is in the grove. */
  ghost predicate Fits<C, V>(own: int -> V, k: int, g: Grove, told: C, hand: (Span, C) -> C, worth: (Span, C) -> V)
    decreases g
  {
    match g
    case Bare => true
    case Grown(earlier, e, children) =>
      var m := k + Size(earlier);
      && own(m + Size(children)) == worth(e, told)
      && Fits(own, k, earlier, told, hand, worth) && Fits(own, m, children, hand(e, told), hand, worth)
  }

  lemma {:induction false} GroveFits<C(!new), V>(hang: Hang, top: C, tells: int -> C, own: int -> V,
                                           hand: (Span, C) -> C, worth: (Span, C) -> V,
                                           k: int, g: Grove, root: bool, j: int)
    requires Consistent(hang, top, tells, own, hand, worth) && Lies(hang, k, g, root, j)
    ensures Fits(own, k, g, Heard(top, tells, root, j), hand, worth)
    decreases g
  {
    if g.Grown? {
      var m := k + Size(g.earlier);
      var i := m + Size(g.children);
      GroveFits(hang, top, tells, own, hand, worth, k, g.earlier, root, j);
      GroveFits(hang, top, tells, own, hand, worth, m, g.children, false, i);
      LastIsWorth(hang, top, tells, own, hand, worth, i, g.span, root, j);
    }
  }

  /** A grove adds its sum to the running sum. */
  lemma {:induction false} GroveAdds<C, V(!new)>(own: int -> V, totals: int -> V, k: int, g: Grove, told: C,
                                           hand: (Span, C) -> C, worth: (Span, C) -> V, zero: V, plus: (V, V) -> V)
    requires Additive(zero, plus) && Sums(totals, own, plus) && Fits(own, k, g, told, hand, worth)
    ensures totals(k + Size(g)) == plus(totals(k), Sum(g, told, hand, worth, zero, plus))
    decreases g
  {
    if g.Grown? {
      var m := k + Size(g.earlier);
      GroveAdds(own, totals, k, g.earlier, told, hand, worth, zero, plus);
      GroveAdds(own, totals, m, g.children, hand(g.span, told), hand, worth, zero, plus);
      StretchesAdd(totals, own, zero, plus, k, m, m + Size(g.children), Sum(g.earlier, told, hand, worth, zero, plus),
                   Sum(g.children, hand(g.span, told), hand, worth, zero, plus), worth(g.span, told));
    }
  }

  // ----- the stream -----

  /** Who owns the record at j, as it tells those below. */
  ghost function OwnerAt(s: seq<Span>, j: nat): Option<string>
    requires j < |s|
  {
    match NearestVfs.Capture(s, j)
    case None => None
    case Some(b) => Some(NearestVfs.Owner(s[b]))
  }

  ghost function NamesAt(s: seq<Span>, j: nat): seq<string>
    requires j < |s|
    decreases |s| - j
  {
    (if NearestVfs.IsBoundary(s[j]) || Next(s, j).None? then [] else NamesAt(s, Next(s, j).value)) + [s[j].op]
  }

  lemma {:induction false} NamesShadow(s: seq<Span>, j: nat, op: string)
    requires j < |s|
    ensures op in NamesAt(s, j) <==> s[j].op == op || NearestVfs.Shadowed(s, j, op)
    decreases |s| - j
  {
    if !NearestVfs.IsBoundary(s[j]) && Next(s, j).Some? {
      NamesShadow(s, Next(s, j).value, op);
    }
  }

  ghost function Tells(s: seq<Span>, j: int): Context {
    if 0 <= j < |s| then Context(OwnerAt(s, j), NamesAt(s, j)) else TOP
  }

  ghost function OwnAt(s: seq<Span>, owner: string, op: string, i: int): Tally {
    if 0 <= i < |s| && i in NearestVfs.Owned(s, owner, op) then Tally(1, s[i].elapsed) else NOTHING
  }

  ghost predicate Hangs(s: seq<Span>, i: int, e: Span, root: bool, j: int) {
    0 <= i < |s| && s[i] == e && if root then e.parent == 0 else 0 <= j < |s| && Next(s, i) == Some(j)
  }

  lemma HeardIsTold(s: seq<Span>, i: int, e: Span, root: bool, j: int)
    requires Hangs(s, i, e, root, j)
    ensures Tells(s, i) == Below(e, if root then TOP else Tells(s, j))
  {
  }

  lemma HeardIsWorth(s: seq<Span>, i: int, e: Span, root: bool, j: int, owner: string, op: string)
    requires Hangs(s, i, e, root, j)
    ensures OwnAt(s, owner, op, i) == Own(e, if root then TOP else Tells(s, j), owner, op)
  {
    if !NearestVfs.IsBoundary(e) {
      NamesShadow(s, j, op);
    }
  }

  lemma StreamIsConsistent(s: seq<Span>, hang: Hang, tells: int -> Context, own: int -> Tally,
                            worth: (Span, Context) -> Tally, owner: string, op: string)
    requires forall i, e, root, j | hang(i, e, root, j) :: Hangs(s, i, e, root, j)
    requires forall i :: tells(i) == Tells(s, i)
    requires forall i :: own(i) == OwnAt(s, owner, op, i)
    requires forall e, above :: worth(e, above) == Own(e, above, owner, op)
    ensures Consistent(hang, TOP, tells, own, Below, worth)
  {
    forall i, e, root, j | hang(i, e, root, j)
      ensures tells(i) == Below(e, Heard(TOP, tells, root, j)) && own(i) == worth(e, Heard(TOP, tells, root, j))
    {
      assert Hangs(s, i, e, root, j);
      HeardIsTold(s, i, e, root, j);
      HeardIsWorth(s, i, e, root, j, owner, op);
    }
  }

  /** The same, by the parent's id. */
  ghost predicate Named(s: seq<Span>, i: int, e: Span, root: bool, j: int) {
    0 <= i < |s| && s[i] == e && if root then e.parent == 0 else 0 <= j < |s| && s[j].id == e.parent
  }

  ghost predicate Covers(hang: Hang, s: seq<Span>) {
    forall i, e, root, j | Named(s, i, e, root, j) :: hang(i, e, root, j)
  }

  /** Where the parts of a placed grove are. */
  lemma PlacedNode(s: seq<Span>, hang: Hang, k: int, g: Grove, p: int, j: int)
    requires g.Grown? && Placed(s, k, g) && Linked(g, p) && Covers(hang, s) && (p != 0 ==> 0 <= j < |s| && s[j].id == p)
    ensures var m := k + Size(g.earlier);
            var i := m + Size(g.children);
            && Placed(s, k, g.earlier) && Placed(s, m, g.children)
            && 0 <= i < |s| && s[i].id == g.span.id && hang(i, g.span, p == 0, j)
  {
    SizeIsLength(g.earlier);
    SizeIsLength(g.children);
    PlacedParts(s, k, g);
    assert Named(s, k + Size(g.earlier) + Size(g.children), g.span, p == 0, j);
  }

  lemma {:induction false} PlacedLies(s: seq<Span>, hang: Hang, k: int, g: Grove, p: int, j: int)
    requires Placed(s, k, g) && Linked(g, p) && Covers(hang, s) && (p != 0 ==> 0 <= j < |s| && s[j].id == p)
    ensures Lies(hang, k, g, p == 0, j)
    decreases g
  {
    if g.Grown? {
      var m := k + Size(g.earlier);
      PlacedNode(s, hang, k, g, p, j);
      PlacedLies(s, hang, k, g.earlier, p, j);
      PlacedLies(s, hang, m, g.children, g.span.id, m + Size(g.children));
    }
  }

  /** The owned events among the first n. */
  ghost function Part(s: seq<Span>, n: int, owner: string, op: string): set<nat> {
    set i: nat | i < n && i in NearestVfs.Owned(s, owner, op)
  }

  /** The record at i is worth what it adds to the set. */
  ghost predicate OneMore(at: int -> set<nat>, cost: nat -> int, own: int -> Tally, i: int) {
    if own(i) == NOTHING then at(i + 1) == at(i)
    else 0 <= i && i !in at(i) && at(i + 1) == at(i) + {i} && own(i) == Tally(1, cost(i))
  }

  lemma OneMoreTally(at: int -> set<nat>, cost: nat -> int, own: int -> Tally, i: int)
    requires OneMore(at, cost, own, i)
    ensures TallyOf(at(i + 1), cost) == Plus(TallyOf(at(i), cost), own(i))
  {
    if own(i) == NOTHING {
      PlusNothing(TallyOf(at(i), cost));
    } else {
      TallyWith<nat>(at(i), at(i + 1), i, cost);
    }
  }

  lemma TallyWith<T>(before: set<T>, after: set<T>, x: T, cost: T -> int)
    requires x !in before && after == before + {x}
    ensures TallyOf(after, cost) == Plus(TallyOf(before, cost), Tally(1, cost(x)))
  {
    TallyUnion(before, {x}, cost);
    TallyOne(x, cost);
  }

  lemma PartNext(s: seq<Span>, n: int, owner: string, op: string)
    ensures Part(s, n + 1, owner, op)
         == Part(s, n, owner, op) + (if 0 <= n < |s| && n in NearestVfs.Owned(s, owner, op) then {n as nat} else {})
    ensures n !in Part(s, n, owner, op)
  {
  }

  lemma RowIsTotal(s: seq<Span>, owner: string, op: string)
    ensures Part(s, 0, owner, op) == {}
    ensures NearestVfs.NearestRow(owner, op)(s) == TallyOf(Part(s, |s|, owner, op), Costs(s))
  {
    assert Part(s, |s|, owner, op) == NearestVfs.Owned(s, owner, op);
    NearestVfs.NearestRowIsOwned(s, owner, op);
  }

  lemma TraceLies(g: Grove, hang: Hang)
    requires Trace(g) && forall i, e, root, j :: hang(i, e, root, j) <==> Hangs(Written(g), i, e, root, j)
    ensures Lies(hang, 0, g, true, 0)
  {
    var s := Written(g);
    TracesAreForests(g);
    forall i, e, root, j | Named(s, i, e, root, j) ensures hang(i, e, root, j) {
      if !root {
        ForestParent(s, i, j);
      }
      assert Hangs(s, i, e, root, j);
    }
    PlacedLies(s, hang, 0, g, 0, 0);
  }

  lemma StreamFits(g: Grove, owner: string, op: string, own: int -> Tally, worth: (Span, Context) -> Tally)
    requires Trace(g)
    requires forall i :: own(i) == OwnAt(Written(g), owner, op, i)
    requires forall e, above :: worth(e, above) == Own(e, above, owner, op)
    ensures Fits(own, 0, g, TOP, Below, worth)
  {
    var s := Written(g);
    var hang: Hang := (i, e, root, j) => Hangs(s, i, e, root, j);
    var tells := (i: int) => Tells(s, i);
    StreamIsConsistent(s, hang, tells, own, worth, owner, op);
    TraceLies(g, hang);
    GroveFits(hang, TOP, tells, own, Below, worth, 0, g, true, 0);
  }

  lemma StreamTotal(g: Grove, own: int -> Tally, totals: int -> Tally,
                     worth: (Span, Context) -> Tally, hand: (Span, Context) -> Context, top: Context,
                     zero: Tally, plus: (Tally, Tally) -> Tally)
    requires Fits(own, 0, g, top, hand, worth) && Additive(zero, plus) && Sums(totals, own, plus)
    ensures totals(Size(g)) == plus(totals(0), Sum(g, top, hand, worth, zero, plus))
  {
    GroveAdds(own, totals, 0, g, top, hand, worth, zero, plus);
  }

  ghost function OwnOf(s: seq<Span>, owner: string, op: string): int -> Tally {
    (i: int) => OwnAt(s, owner, op, i)
  }

  ghost function TotalsOf(s: seq<Span>, owner: string, op: string): int -> Tally {
    (n: int) => TallyOf(Part(s, n, owner, op), Costs(s))
  }

  lemma NextTotals(s: seq<Span>, owner: string, op: string, own: int -> Tally, totals: int -> Tally)
    requires own == OwnOf(s, owner, op) && totals == TotalsOf(s, owner, op)
    ensures Sums(totals, own, Plus)
  {
    forall i ensures totals(i + 1) == Plus(totals(i), own(i)) {
      PartNext(s, i, owner, op);
      OneMoreTally((n: int) => Part(s, n, owner, op), Costs(s), own, i);
    }
  }

  lemma PlusIsAdditive()
    ensures Additive(NOTHING, Plus)
  {
    forall a, b, c ensures Plus(Plus(a, b), c) == Plus(a, Plus(b, c)) { PlusSwap(a, b, c, NOTHING); }
    forall a ensures Plus(a, NOTHING) == a { PlusNothing(a); }
  }

  /** On every such file, what the streaming analysis credits to an owner is the attribution from the roots
      down. */
  lemma CreditsAreAttributed(g: Grove, owner: string, op: string)
    requires Trace(g)
    ensures NearestVfs.NearestRow(owner, op)(Written(g)) == Attributed(g, owner, op)
  {
    var s := Written(g);
    SizeIsLength(g);
    RowIsTotal(s, owner, op);
    TallyNone(Costs(s));
    var own, totals := OwnOf(s, owner, op), TotalsOf(s, owner, op);
    var worth: (Span, Context) -> Tally := (e, above) => Own(e, above, owner, op);
    PlusIsAdditive();
    NextTotals(s, owner, op, own, totals);
    StreamFits(g, owner, op, own, worth);
    StreamTotal(g, own, totals, worth, Below, TOP, NOTHING, Plus);
  }
}
