/** The state of a root plan, what every operation keeps of it, and the steps it is changed by. */
module Plans {
  import opened Frames
  import opened Spans
  import opened Installation
  import Collections

  /** What a target is installed from, and the package that brought it, if one did. */
  datatype Entry = Entry(origin: string, package: Option<string>)

  /** An ELF file whose dependencies are to be found: a planned file, or a member of a planned JAR. */
  datatype Item = Item(origin: string, member: Option<string>, info: Info)

  datatype Provider = Module(name: string) | Planned(path: string, package: Option<string>)

  datatype Edge = Edge(from: string, needed: string, provider: Provider)

  datatype Owner = Owner(origin: string, target: string, package: Option<string>)

  datatype Addition = Addition(origin: string, target: string)

  datatype Question = Question(from: string, needed: string)

  /** The fields of the plan, and its history: every item ever queued, every addition, the copied packages
      in the order they were finished, and the dependencies resolved on request. */
  datatype Plan = Plan(
    entries: map<string, Entry>, pending: seq<Item>, seen: set<string>, edges: seq<Edge>, sonames: map<string, Owner>,
    packages: set<string>, queued: seq<Item>, added: seq<Addition>, copied: seq<string>, asked: set<Question>)

  function Label(item: Item): string {
    if item.member.None? then item.origin else item.origin + "!" + item.member.value
  }

  // ----- files and names -----

  /** target is planned, with the content that origin has. */
  ghost predicate Holds(w: World, s: Plan, target: string, origin: string) {
    target in s.entries && Content(w, s.entries[target].origin) == Content(w, origin)
  }

  ghost predicate FromFiles(w: World, s: Plan) {
    forall t | t in s.entries :: s.entries[t].origin in w.files
  }

  /** Whatever was ever added for a target has the content that is planned for it. */
  ghost predicate OneContentEach(w: World, s: Plan) {
    forall a | a in s.added :: Holds(w, s, a.target, a.origin)
  }

  ghost predicate QueuedFile(w: World, s: Plan, content: seq<byte>) {
    exists q :: q in s.queued && q.member.None? && Content(w, q.origin) == content
  }

  /** A planned file that can be loaded was queued, and owns its SONAME. */
  ghost predicate Known(w: World, s: Plan, content: seq<byte>) {
    && w.elf(content).Some? && QueuedFile(w, s, content)
    && (w.elf(content).value.soname != "" ==>
        && w.elf(content).value.soname in s.sonames
        && Content(w, s.sonames[w.elf(content).value.soname].origin) == content)
  }

  ghost predicate ElvesKnown(w: World, s: Plan) {
    forall t | t in s.entries && Loadable(Content(w, s.entries[t].origin)) ::
        Known(w, s, Content(w, s.entries[t].origin))
  }

  /** A SONAME leads to a planned file that has it. */
  ghost predicate OwnerIsPlanned(w: World, s: Plan, n: string)
    requires n in s.sonames
  {
    && n != "" && Holds(w, s, s.sonames[n].target, s.sonames[n].origin)
    && w.elf(Content(w, s.sonames[n].origin)).Some? && w.elf(Content(w, s.sonames[n].origin)).value.soname == n
  }

  ghost predicate OwnersPlanned(w: World, s: Plan) {
    forall n | n in s.sonames :: OwnerIsPlanned(w, s, n)
  }

  ghost predicate ItemsReal(w: World, s: Plan) {
    forall q | q in s.queued && q.member.None? :: w.elf(Content(w, q.origin)) == Some(q.info)
  }

  // ----- the queue -----

  ghost function Popped(s: Plan): int { |s.queued| - |s.pending| }

  /** What is pending is the end of what was queued, and the labels seen are those of the rest. */
  ghost predicate Queue(s: Plan) {
    && |s.pending| <= |s.queued| && s.pending == s.queued[Popped(s)..]
    && (forall i | 0 <= i < Popped(s) :: Label(s.queued[i]) in s.seen)
    && forall l | l in s.seen :: exists i :: 0 <= i < Popped(s) && Label(s.queued[i]) == l
  }

  /** The first queued item with the label; |queued| when there is none. */
  ghost function First(queued: seq<Item>, from: string): (k: int)
    ensures 0 <= k <= |queued|
    ensures k < |queued| ==> Label(queued[k]) == from
    ensures forall j | 0 <= j < k :: Label(queued[j]) != from
  {
    if queued == [] then 0 else if Label(queued[0]) == from then 0 else 1 + First(queued[1..], from)
  }

  ghost predicate NeededFirst(queued: seq<Item>, from: string, needed: string) {
    First(queued, from) < |queued| && needed in Needs(queued[First(queued, from)].info)
  }

  // ----- edges -----

  ghost predicate HasEdge(edges: seq<Edge>, from: string, needed: string) {
    exists e :: e in edges && e.from == from && e.needed == needed
  }

  ghost predicate Anchored(w: World, s: Plan, e: Edge) {
    match e.provider
    case Module(name) => name in w.provided
    case Planned(path, _) => path in s.entries
  }

  /** Every edge ends at a provided module or a planned target. */
  ghost predicate AllAnchored(w: World, s: Plan) {
    forall e | e in s.edges :: Anchored(w, s, e)
  }

  /** Every name needed by the first item with a seen label has an edge. */
  ghost predicate Answered(queued: seq<Item>, edges: seq<Edge>, labels: set<string>) {
    forall l, n | l in labels && NeededFirst(queued, l, n) :: HasEdge(edges, l, n)
  }

  /** An edge belongs to a name needed by the first item with its label, or was asked for. */
  ghost predicate Justified(s: Plan) {
    forall e | e in s.edges ::
        Question(e.from, e.needed) in s.asked || (e.from in s.seen && NeededFirst(s.queued, e.from, e.needed))
  }

  // ----- packages -----

  ghost predicate FilesPlanned(w: World, s: Plan, files: seq<Payload>) {
    forall f | f in files :: Holds(w, s, f.target, w.resolved(f.origin))
  }

  /** A copied package was loaded, and all its files are planned. */
  ghost predicate Copied(w: World, s: Plan, name: string) {
    name in w.lock && w.lock[name].files.Some? && FilesPlanned(w, s, w.lock[name].files.value)
  }

  ghost predicate Packages(w: World, s: Plan) {
    && (forall p :: p in s.packages <==> p in s.copied)
    && (forall i, j | 0 <= i < j < |s.copied| :: s.copied[i] != s.copied[j])
    && Layered(w, s.copied)
    && forall p | p in s.copied :: Copied(w, s, p)
  }

  // ----- all of it -----

  ghost predicate Files(w: World, s: Plan) {
    FromFiles(w, s) && OneContentEach(w, s) && ElvesKnown(w, s) && OwnersPlanned(w, s) && ItemsReal(w, s)
  }

  ghost predicate Edges(w: World, s: Plan) {
    AllAnchored(w, s) && Justified(s)
  }

  ghost predicate Sound(w: World, s: Plan) {
    Files(w, s) && Queue(s) && Edges(w, s) && Packages(w, s)
  }

  const EMPTY := Plan(map[], [], {}, [], map[], {}, [], [], [], {})

  lemma EmptyIsSound(w: World)
    ensures Sound(w, EMPTY)
  {
    assert Packages(w, EMPTY) && Queue(EMPTY) && Edges(w, EMPTY);
  }

  /** What adding files and copying packages does to the plan. */
  ghost predicate Grows(w: World, s: Plan, t: Plan) {
    && s.entries.Keys <= t.entries.Keys
    && (forall x | x in s.entries :: Holds(w, t, x, s.entries[x].origin))
    && s.queued <= t.queued && t.pending == s.pending + t.queued[|s.queued|..]
    && s.copied <= t.copied
    && t.seen == s.seen && t.asked == s.asked
    && (s.entries.Keys == t.entries.Keys ==> t.queued == s.queued)
  }

  lemma GrowsOn(w: World, s: Plan, t: Plan, u: Plan)
    requires Grows(w, s, t) && Grows(w, t, u)
    ensures Grows(w, s, u)
  {
    forall x | x in s.entries ensures Holds(w, u, x, s.entries[x].origin) {
      assert Holds(w, t, x, s.entries[x].origin);
    }
    assert u.queued[|s.queued|..] == t.queued[|s.queued|..] + u.queued[|t.queued|..];
    if s.entries.Keys == u.entries.Keys {
      assert t.entries.Keys == s.entries.Keys;
    }
  }

  lemma HoldsOn(w: World, s: Plan, t: Plan, target: string, origin: string)
    requires Grows(w, s, t) && Holds(w, s, target, origin)
    ensures Holds(w, t, target, origin)
  {
    assert Holds(w, t, target, s.entries[target].origin);
  }

  lemma CopiedOn(w: World, s: Plan, t: Plan, name: string)
    requires Grows(w, s, t) && Copied(w, s, name)
    ensures Copied(w, t, name)
  {
    forall f | f in w.lock[name].files.value ensures Holds(w, t, f.target, w.resolved(f.origin)) {
      assert Holds(w, s, f.target, w.resolved(f.origin));
      HoldsOn(w, s, t, f.target, w.resolved(f.origin));
    }
  }

  /** The first item with a label stays the first. */
  lemma FirstOn(q: seq<Item>, r: seq<Item>, from: string)
    requires q <= r && First(q, from) < |q|
    ensures First(r, from) == First(q, from) && r[First(q, from)] == q[First(q, from)]
  {
    var a := First(q, from);
    assert r[a] == q[a];
    assert forall j | 0 <= j < a :: r[j] == q[j];
  }

  lemma FirstExists(q: seq<Item>, i: int)
    requires 0 <= i < |q|
    ensures First(q, Label(q[i])) <= i
  {
  }

  lemma QueueOn(w: World, s: Plan, t: Plan)
    requires Queue(s) && Grows(w, s, t)
    ensures Queue(t) && Popped(t) == Popped(s)
  {
    assert t.queued == s.queued + t.queued[|s.queued|..];
    forall l | l in t.seen ensures exists i :: 0 <= i < Popped(t) && Label(t.queued[i]) == l {
      var i :| 0 <= i < Popped(s) && Label(s.queued[i]) == l;
      assert t.queued[i] == s.queued[i];
    }
    assert forall i | 0 <= i < Popped(s) :: t.queued[i] == s.queued[i];
  }

  /** Growing keeps what the edges say. */
  lemma EdgesOn(w: World, s: Plan, t: Plan)
    requires Queue(s) && Edges(w, s) && Grows(w, s, t) && t.edges == s.edges
    ensures Edges(w, t)
  {
    forall e | e in t.edges
      ensures Anchored(w, t, e)
      ensures Question(e.from, e.needed) in t.asked || (e.from in t.seen && NeededFirst(t.queued, e.from, e.needed))
    {
      assert Anchored(w, s, e);
      if Question(e.from, e.needed) !in s.asked {
        assert NeededFirst(s.queued, e.from, e.needed);
        FirstOn(s.queued, t.queued, e.from);
      }
    }
  }

  lemma PackagesOn(w: World, s: Plan, t: Plan)
    requires Packages(w, s) && Grows(w, s, t) && t.packages == s.packages && t.copied == s.copied
    ensures Packages(w, t)
  {
    forall p | p in t.copied ensures Copied(w, t, p) {
      CopiedOn(w, s, t, p);
    }
  }

  lemma SoundOn(w: World, s: Plan, t: Plan)
    requires Sound(w, s) && Files(w, t) && Grows(w, s, t)
    requires t.edges == s.edges && t.packages == s.packages && t.copied == s.copied
    ensures Sound(w, t)
  {
    QueueOn(w, s, t);
    EdgesOn(w, s, t);
    PackagesOn(w, s, t);
  }

  // ----- adding a file -----

  ghost function Put(s: Plan, target: string, entry: Entry): Plan {
    s.(entries := s.entries[target := entry], added := s.added + [Addition(entry.origin, target)])
  }

  ghost function Again(s: Plan, target: string, origin: string): Plan {
    s.(added := s.added + [Addition(origin, target)])
  }

  ghost function Enlist(s: Plan, items: seq<Item>): Plan {
    s.(pending := s.pending + items, queued := s.queued + items)
  }

  ghost function Own(s: Plan, name: string, owner: Owner): Plan {
    if name == "" then s else s.(sonames := s.sonames[name := owner])
  }

  /** A known target is added again, with the same content. */
  lemma AgainKeeps(w: World, s: Plan, target: string, origin: string)
    requires Files(w, s) && Holds(w, s, target, origin)
    ensures Files(w, Again(s, target, origin)) && Grows(w, s, Again(s, target, origin))
  {
    var t := Again(s, target, origin);
    forall a | a in t.added ensures Holds(w, t, a.target, a.origin) {
      if a in s.added { assert Holds(w, s, a.target, a.origin); }
    }
    SameElves(w, s, t);
  }

  /** The planned contents, the names and the queue are the same: so is what is known. */
  lemma SameElves(w: World, s: Plan, t: Plan)
    requires ElvesKnown(w, s) && OwnersPlanned(w, s) && t.sonames == s.sonames && t.queued == s.queued
    requires t.entries.Keys == s.entries.Keys
    requires forall x | x in s.entries :: Content(w, t.entries[x].origin) == Content(w, s.entries[x].origin)
    ensures ElvesKnown(w, t) && OwnersPlanned(w, t)
  {
    forall x | x in t.entries && Loadable(Content(w, t.entries[x].origin))
      ensures Known(w, t, Content(w, t.entries[x].origin))
    {
      assert Known(w, s, Content(w, s.entries[x].origin));
    }
    forall n | n in t.sonames ensures OwnerIsPlanned(w, t, n) {
      assert OwnerIsPlanned(w, s, n);
    }
  }

  lemma ReplaceKeeps(w: World, s: Plan, target: string, entry: Entry)
    requires Files(w, s) && Holds(w, s, target, entry.origin) && entry.origin in w.files
    ensures Files(w, Put(s, target, entry)) && Grows(w, s, Put(s, target, entry))
  {
    var t := Put(s, target, entry);
    forall a | a in t.added ensures Holds(w, t, a.target, a.origin) {
      if a in s.added { assert Holds(w, s, a.target, a.origin); }
    }
    SameElves(w, s, t);
  }

  /** A new target that cannot be loaded, perhaps with members of its own to look at. */
  lemma PutKeeps(w: World, s: Plan, target: string, entry: Entry, items: seq<Item>)
    requires Files(w, s) && target !in s.entries && entry.origin in w.files && !Loadable(Content(w, entry.origin))
    requires forall q | q in items :: q.member.Some?
    ensures Files(w, Enlist(Put(s, target, entry), items)) && Grows(w, s, Enlist(Put(s, target, entry), items))
  {
    var t := Enlist(Put(s, target, entry), items);
    AddedOn(w, s, t, target, entry.origin);
    forall x | x in t.entries && Loadable(Content(w, t.entries[x].origin))
      ensures Known(w, t, Content(w, t.entries[x].origin))
    {
      assert Known(w, s, Content(w, s.entries[x].origin));
      QueuedOn(w, s, t, Content(w, s.entries[x].origin));
    }
    forall n | n in t.sonames ensures OwnerIsPlanned(w, t, n) {
      assert OwnerIsPlanned(w, s, n);
    }
    assert t.entries.Keys != s.entries.Keys by { assert target in t.entries.Keys; }
  }

  lemma AddedOn(w: World, s: Plan, t: Plan, target: string, origin: string)
    requires OneContentEach(w, s) && t.added == s.added + [Addition(origin, target)]
    requires target !in s.entries && s.entries.Keys <= t.entries.Keys && Holds(w, t, target, origin)
    requires forall x | x in s.entries :: t.entries[x] == s.entries[x]
    ensures OneContentEach(w, t)
  {
    forall a | a in t.added ensures Holds(w, t, a.target, a.origin) {
      if a in s.added { assert Holds(w, s, a.target, a.origin); }
    }
  }

  lemma QueuedOn(w: World, s: Plan, t: Plan, content: seq<byte>)
    requires QueuedFile(w, s, content) && s.queued <= t.queued
    ensures QueuedFile(w, t, content)
  {
    var q :| q in s.queued && q.member.None? && Content(w, q.origin) == content;
    assert q in t.queued;
  }

  ghost function Load(s: Plan, target: string, entry: Entry, info: Info): Plan {
    Enlist(Own(Put(s, target, entry), info.soname, Owner(entry.origin, target, entry.package)),
        [Item(entry.origin, None, info)])
  }

  /** Nothing else has the SONAME. */
  ghost predicate FreeName(w: World, s: Plan, name: string, origin: string) {
    name != "" && name in s.sonames ==> Content(w, s.sonames[name].origin) == Content(w, origin)
  }

  /** A new target that can be loaded takes its SONAME and is queued. */
  lemma LoadKeeps(w: World, s: Plan, target: string, entry: Entry, info: Info)
    requires Files(w, s) && target !in s.entries && entry.origin in w.files
    requires w.elf(Content(w, entry.origin)) == Some(info) && FreeName(w, s, info.soname, entry.origin)
    ensures Files(w, Load(s, target, entry, info)) && Grows(w, s, Load(s, target, entry, info))
  {
    var t, item := Load(s, target, entry, info), Item(entry.origin, None, info);
    AddedOn(w, s, t, target, entry.origin);
    assert t.queued == s.queued + [item] && item in t.queued;
    forall x | x in t.entries && Loadable(Content(w, t.entries[x].origin))
      ensures Known(w, t, Content(w, t.entries[x].origin))
    {
      if x != target {
        assert Known(w, s, Content(w, s.entries[x].origin));
        QueuedOn(w, s, t, Content(w, s.entries[x].origin));
      }
    }
    forall n | n in t.sonames ensures OwnerIsPlanned(w, t, n) {
      if n != info.soname { assert OwnerIsPlanned(w, s, n); }
    }
    assert t.entries.Keys != s.entries.Keys by { assert target in t.entries.Keys; }
  }

  /** What a JAR member adds to the queue: itself, if it is a library for this machine. */
  function Native(w: World, origin: string, m: Member): (items: seq<Item>)
    ensures forall q | q in items :: q.member.Some? && q.origin == origin
  {
    if m.library && w.linux(m.name, m.content) && w.elf(m.content).Some?
    then [Item(origin, Some(m.name), w.elf(m.content).value)] else []
  }

  function Natives(w: World, origin: string, members: seq<Member>): (items: seq<Item>)
    ensures forall q | q in items :: q.member.Some? && q.origin == origin
  {
    if members == [] then [] else
      Natives(w, origin, members[..|members| - 1]) + Native(w, origin, members[|members| - 1])
  }

  /** What a JAR adds to the queue: its members that are ELF libraries for this machine, by their names. */
  lemma {:induction false} NativesAre(w: World, origin: string, members: seq<Member>, q: Item)
    ensures q in Natives(w, origin, members)
       <==> && q.origin == origin
            && exists m :: m in members && m.library && w.linux(m.name, m.content) && q.member == Some(m.name)
                           && w.elf(m.content) == Some(q.info)
  {
    if members != [] {
      var k := |members| - 1;
      NativesAre(w, origin, members[..k], q);
      assert members == members[..k] + [members[k]];
    }
  }

  lemma NextMember(w: World, origin: string, members: seq<Member>, k: int)
    requires 0 <= k < |members|
    ensures Natives(w, origin, members[..k + 1]) == Natives(w, origin, members[..k]) + Native(w, origin, members[k])
  {
    assert members[..k + 1][..k] == members[..k];
  }

  // ----- resolving one name -----

  ghost function Link(s: Plan, edge: Edge): Plan {
    s.(edges := s.edges + [edge])
  }

  /** The name is to be resolved: the first item with the label needs it, or it was asked for. */
  ghost predicate Due(s: Plan, from: string, needed: string) {
    Question(from, needed) in s.asked || (from in s.seen && NeededFirst(s.queued, from, needed))
  }

  lemma DueOn(w: World, s: Plan, t: Plan, from: string, needed: string)
    requires Due(s, from, needed) && Grows(w, s, t)
    ensures Due(t, from, needed)
  {
    if NeededFirst(s.queued, from, needed) {
      FirstOn(s.queued, t.queued, from);
    }
  }

  lemma LinkKeeps(w: World, s: Plan, e: Edge)
    requires Sound(w, s) && Anchored(w, s, e) && Due(s, e.from, e.needed)
    ensures Sound(w, Link(s, e)) && Grows(w, s, Link(s, e))
  {
    var t := Link(s, e);
    SameElves(w, s, t);
    assert OneContentEach(w, t) by {
      forall a | a in t.added ensures Holds(w, t, a.target, a.origin) { assert Holds(w, s, a.target, a.origin); }
    }
    QueueOn(w, s, t);
    PackagesOn(w, s, t);
    forall f | f in t.edges
      ensures Anchored(w, t, f)
      ensures Question(f.from, f.needed) in t.asked || (f.from in t.seen && NeededFirst(t.queued, f.from, f.needed))
    {
      if f in s.edges { assert Anchored(w, s, f); }
    }
  }

  /** A package whose requirements are copied and whose files are planned is copied. */
  ghost function Finish(s: Plan, name: string): Plan {
    s.(packages := s.packages + {name}, copied := s.copied + [name])
  }

  lemma FinishKeeps(w: World, s: Plan, name: string)
    requires Sound(w, s) && name !in s.packages && Copied(w, s, name)
    requires forall d | d in w.lock[name].dependencies :: d in s.packages
    ensures Sound(w, Finish(s, name)) && Grows(w, s, Finish(s, name))
  {
    var t := Finish(s, name);
    SameElves(w, s, t);
    assert OneContentEach(w, t) by {
      forall a | a in t.added ensures Holds(w, t, a.target, a.origin) { assert Holds(w, s, a.target, a.origin); }
    }
    QueueOn(w, s, t);
    EdgesOn(w, s, t);
    forall i | 0 <= i < |t.copied|
      ensures t.copied[i] in w.lock && forall d | d in w.lock[t.copied[i]].dependencies :: d in t.copied[..i]
    {
      if i < |s.copied| {
        assert t.copied[..i] == s.copied[..i] && t.copied[i] == s.copied[i];
      } else {
        assert t.copied[..i] == s.copied;
      }
    }
    forall p | p in t.copied ensures Copied(w, t, p) {
      assert Copied(w, s, p);
      CopiedOn(w, s, t, p);
    }
  }

  // ----- taking an item from the queue -----

  ghost function Pop(s: Plan): Plan
    requires s.pending != []
  {
    s.(pending := s.pending[1..], seen := s.seen + {Label(s.pending[0])})
  }

  lemma PopKeeps(w: World, s: Plan)
    requires Sound(w, s) && s.pending != []
    ensures Sound(w, Pop(s))
    ensures Label(s.pending[0]) !in s.seen ==> IsFirst(s.queued, s.pending[0])
  {
    var t, item := Pop(s), s.pending[0];
    SameElves(w, s, t);
    assert OneContentEach(w, t) by {
      forall a | a in t.added ensures Holds(w, t, a.target, a.origin) { assert Holds(w, s, a.target, a.origin); }
    }
    assert s.queued[Popped(s)] == item && Popped(t) == Popped(s) + 1;
    PopKeepsQueue(s);
    forall p | p in t.copied ensures Copied(w, t, p) {
      assert Copied(w, s, p);
      SameCopied(w, s, t, p);
    }
    forall e | e in t.edges
      ensures Anchored(w, t, e)
      ensures Question(e.from, e.needed) in t.asked || (e.from in t.seen && NeededFirst(t.queued, e.from, e.needed))
    {
      assert Anchored(w, s, e);
    }
    if Label(item) !in s.seen {
      FirstExists(s.queued, Popped(s));
    }
  }

  lemma SameCopied(w: World, s: Plan, t: Plan, name: string)
    requires Copied(w, s, name) && t.entries == s.entries
    ensures Copied(w, t, name)
  {
    forall f | f in w.lock[name].files.value ensures Holds(w, t, f.target, w.resolved(f.origin)) {
      assert Holds(w, s, f.target, w.resolved(f.origin));
    }
  }

  lemma PopKeepsQueue(s: Plan)
    requires Queue(s) && s.pending != []
    ensures Queue(Pop(s))
  {
    var t := Pop(s);
    forall l | l in t.seen ensures exists i :: 0 <= i < Popped(t) && Label(t.queued[i]) == l {
      if l in s.seen {
        var i :| 0 <= i < Popped(s) && Label(s.queued[i]) == l;
        assert Label(t.queued[i]) == l;
      } else {
        assert Label(t.queued[Popped(s)]) == l;
      }
    }
  }

  /** item is the first that was queued with its label. */
  ghost predicate IsFirst(queued: seq<Item>, item: Item) {
    First(queued, Label(item)) < |queued| && queued[First(queued, Label(item))] == item
  }

  lemma IsFirstOn(w: World, s: Plan, t: Plan, item: Item)
    requires IsFirst(s.queued, item) && Grows(w, s, t)
    ensures IsFirst(t.queued, item)
  {
    FirstOn(s.queued, t.queued, Label(item));
  }

  /** Answers stay answers while the queue and the edges grow. */
  lemma AnsweredOn(w: World, s: Plan, t: Plan, labels: set<string>)
    requires Queue(s) && labels <= s.seen && Answered(s.queued, s.edges, labels) && Grows(w, s, t) && s.edges <= t.edges
    ensures Answered(t.queued, t.edges, labels)
  {
    forall l, n | l in labels && NeededFirst(t.queued, l, n) ensures HasEdge(t.edges, l, n) {
      var i :| 0 <= i < Popped(s) && Label(s.queued[i]) == l;
      FirstExists(s.queued, i);
      FirstOn(s.queued, t.queued, l);
      assert NeededFirst(s.queued, l, n);
      HasEdgeOn(s.edges, t.edges, l, n);
    }
  }

  lemma HasEdgeOn(a: seq<Edge>, b: seq<Edge>, from: string, needed: string)
    requires a <= b && HasEdge(a, from, needed)
    ensures HasEdge(b, from, needed)
  {
    var e :| e in a && e.from == from && e.needed == needed;
    assert e in b;
  }

  /** Everything the item needs, its interpreter included, has an edge from it. */
  ghost predicate Satisfied(s: Plan, q: Item) {
    && (forall n | n in q.info.needed :: HasEdge(s.edges, Label(q), n))
    && (q.info.interpreter != "" ==> HasEdge(s.edges, Label(q), q.info.interpreter))
  }

  /** Once the item with the last label is complete, all labels are answered. */
  lemma AnsweredWith(s: Plan, item: Item)
    requires Answered(s.queued, s.edges, s.seen - {Label(item)}) && IsFirst(s.queued, item)
    requires forall n | n in Needs(item.info) :: HasEdge(s.edges, Label(item), n)
    ensures Answered(s.queued, s.edges, s.seen)
  {
    forall l, n | l in s.seen && NeededFirst(s.queued, l, n) ensures HasEdge(s.edges, l, n) {
      if l == Label(item) {
        assert n in Needs(item.info);
      } else {
        assert l in s.seen - {Label(item)};
      }
    }
  }

  // ----- why the closure ends -----

  /** Only targets of the universe are new. */
  ghost predicate Within(w: World, s: Plan, t: Plan) {
    t.entries.Keys <= s.entries.Keys + Universe(w)
  }

  ghost function Unplanned(w: World, s: Plan): set<string> { Universe(w) - s.entries.Keys }

  /** Either a target of the universe has been planned, or nothing was queued. */
  lemma FewerUnplanned(w: World, s: Plan, t: Plan)
    requires Grows(w, s, t) && Within(w, s, t)
    ensures Unplanned(w, t) < Unplanned(w, s) || (Unplanned(w, t) == Unplanned(w, s) && t.pending == s.pending)
  {
    if t.entries.Keys - s.entries.Keys != {} {
      var x := Collections.Pick(t.entries.Keys - s.entries.Keys);
      assert x in Unplanned(w, s) && x !in Unplanned(w, t);
    } else {
      forall x | x in t.entries.Keys ensures x in s.entries.Keys {
        assert x !in t.entries.Keys - s.entries.Keys;
      }
      assert t.entries.Keys == s.entries.Keys;
    }
  }

  // ----- what a finished plan promises -----

  /** Two loadable files have one SONAME. */
  ghost predicate SameName(w: World, c: seq<byte>, d: seq<byte>) {
    && Loadable(c) && Loadable(d) && w.elf(c).Some? && w.elf(d).Some?
    && w.elf(c).value.soname != "" && w.elf(c).value.soname == w.elf(d).value.soname
  }

  /** Two files with one target, or planned files with one SONAME, have the same content. */
  lemma TargetsAndNamesAreUnique(w: World, s: Plan)
    requires Sound(w, s)
    ensures forall a, b | a in s.added && b in s.added && a.target == b.target ::
            Content(w, a.origin) == Content(w, b.origin)
    ensures forall x, y | x in s.entries && y in s.entries
                          && SameName(w, Content(w, s.entries[x].origin), Content(w, s.entries[y].origin)) ::
              Content(w, s.entries[x].origin) == Content(w, s.entries[y].origin)
  {
    forall a, b | a in s.added && b in s.added && a.target == b.target
      ensures Content(w, a.origin) == Content(w, b.origin)
    {
      assert Holds(w, s, a.target, a.origin) && Holds(w, s, b.target, b.origin);
    }
    forall x, y | x in s.entries && y in s.entries
                  && SameName(w, Content(w, s.entries[x].origin), Content(w, s.entries[y].origin))
      ensures Content(w, s.entries[x].origin) == Content(w, s.entries[y].origin)
    {
      assert Known(w, s, Content(w, s.entries[x].origin)) && Known(w, s, Content(w, s.entries[y].origin));
    }
  }

  ghost predicate Unasked(s: Plan, from: string) {
    forall n :: Question(from, n) !in s.asked
  }

  /** When the queue is empty, a queued item has found everything if and only if it needs no more than the
      first one with its label. */
  lemma CompleteIff(w: World, s: Plan, i: int)
    requires Sound(w, s) && s.pending == [] && Answered(s.queued, s.edges, s.seen) && 0 <= i < |s.queued|
             && Unasked(s, Label(s.queued[i]))
    ensures Satisfied(s, s.queued[i])
       <==> forall n | n in Needs(s.queued[i].info) :: n in Needs(s.queued[First(s.queued, Label(s.queued[i]))].info)
  {
    var q, from := s.queued[i], Label(s.queued[i]);
    FirstExists(s.queued, i);
    assert i < Popped(s) && from in s.seen;
    forall n | n in Needs(q.info)
      ensures HasEdge(s.edges, from, n) <==> n in Needs(s.queued[First(s.queued, from)].info)
    {
      if n in Needs(s.queued[First(s.queued, from)].info) {
        assert NeededFirst(s.queued, from, n);
      }
      if HasEdge(s.edges, from, n) {
        var e :| e in s.edges && e.from == from && e.needed == n;
        assert Question(e.from, e.needed) !in s.asked;
      }
    }
  }

  /** Labels of files and of JAR members do not meet when no queued file has a "!" in its path. */
  ghost predicate PlainPaths(s: Plan) {
    forall q | q in s.queued && q.member.None? :: '!' !in q.origin
  }

  lemma MemberLabel(q: Item)
    ensures q.member.Some? ==> '!' in Label(q)
  {
    if q.member.Some? { assert Label(q)[|q.origin|] == '!'; }
  }

  /** So every planned file that can be loaded has found everything it needs. */
  lemma FilesAreComplete(w: World, s: Plan, target: string)
    requires Sound(w, s) && s.pending == [] && Answered(s.queued, s.edges, s.seen) && PlainPaths(s)
    requires target in s.entries && Loadable(Content(w, s.entries[target].origin))
    ensures exists q :: q in s.queued && q.member.None? && Content(w, q.origin) == Content(w, s.entries[target].origin)
                        && Satisfied(s, q) && w.elf(Content(w, s.entries[target].origin)) == Some(q.info)
  {
    var content := Content(w, s.entries[target].origin);
    assert Known(w, s, content);
    var q :| q in s.queued && q.member.None? && Content(w, q.origin) == content;
    var i :| 0 <= i < |s.queued| && s.queued[i] == q;
    FirstExists(s.queued, i);
    var k := First(s.queued, Label(q));
    var first := s.queued[k];
    assert first in s.queued;
    assert Label(first) == q.origin && '!' !in q.origin;
    MemberLabel(first);
    assert first.info == q.info;
    assert i < Popped(s) && Label(q) in s.seen;
    FirstIsSatisfied(s, Label(q), q);
  }

  lemma FirstIsSatisfied(s: Plan, from: string, q: Item)
    requires Answered(s.queued, s.edges, s.seen) && from in s.seen && from == Label(q)
    requires First(s.queued, from) < |s.queued| && s.queued[First(s.queued, from)].info == q.info
    ensures Satisfied(s, q)
  {
    forall n | n in Needs(q.info) ensures HasEdge(s.edges, from, n) {
      assert NeededFirst(s.queued, from, n);
    }
  }
}
