/** The steps a root plan is made of: when a file fits, what adding files, copying packages and resolving names
    leave behind, and when that can only fail in one way. */
module RootSteps {
  import opened Frames
  import opened Spans
  import opened Installation
  import opened Plans

  const MEMBER_LIMIT := 128 * 1024 * 1024

  datatype Failure =
    | BadTarget(target: string) | Missing(origin: string) | Outside(origin: string) | TwoFiles(target: string)
    | BadElf(path: string) | TwoProviders(soname: string) | BadJar(origin: string)
    | LargeMember(origin: string, name: string)
    | Cycle(package: string) | UnknownPackage(package: string) | NotLoaded(package: string)
    | BadName(needed: string) | NotElf(path: string) | Absent(from: string, needed: string)

  predicate OfFiles(f: Failure) { !f.Cycle? && !f.Absent? }

  datatype Outcome = Ok | Failed(failure: Failure)

  datatype Search = Found(path: string) | Nowhere | Broken(failure: Failure)

  /** The candidate is a file inside the source. */
  ghost predicate Eligible(w: World, path: string) {
    w.resolved(path) in w.files && w.inSource(w.resolved(path)).Some?
  }

  ghost predicate FirstEligible(w: World, paths: seq<string>, k: int) {
    0 <= k < |paths| && Eligible(w, paths[k]) && forall j | 0 <= j < k :: !Eligible(w, paths[j])
  }

  ghost predicate ReadableElf(w: World, path: string) {
    Elf(Content(w, path)) && w.elf(Content(w, path)).Some?
  }

  predicate ValidName(needed: string) { needed != "" && '\\' !in needed && '\0' !in needed }

  ghost predicate Readable(w: World, origin: string, target: string) {
    w.relative(target).Some? && w.resolved(origin) in w.files && w.allowed(w.resolved(origin))
  }

  ghost predicate SameRest(s: Plan, t: Plan) {
    t.edges == s.edges && t.packages == s.packages && t.copied == s.copied
  }

  /** target has been planned from the file, and nothing that was planned has changed. */
  ghost predicate AddedTo(w: World, s: Plan, t: Plan, target: string, file: string) {
    Sound(w, t) && Grows(w, s, t) && SameRest(s, t) && Holds(w, t, target, file)
        && t.entries.Keys == s.entries.Keys + {target}
  }

  lemma AddedKeeps(w: World, s: Plan, t: Plan, target: string, file: string)
    requires Sound(w, s) && Files(w, t) && Grows(w, s, t) && SameRest(s, t)
    requires Holds(w, t, target, file) && t.entries.Keys == s.entries.Keys + {target}
    ensures AddedTo(w, s, t, target, file)
  {
    SoundOn(w, s, t);
  }

  lemma LoadAdds(w: World, s: Plan, target: string, entry: Entry, info: Info)
    requires Sound(w, s) && target !in s.entries && entry.origin in w.files
    requires w.elf(Content(w, entry.origin)) == Some(info) && FreeName(w, s, info.soname, entry.origin)
    ensures AddedTo(w, s, Load(s, target, entry, info), target, entry.origin)
  {
    LoadKeeps(w, s, target, entry, info);
    AddedKeeps(w, s, Load(s, target, entry, info), target, entry.origin);
  }

  lemma PutAdds(w: World, s: Plan, target: string, entry: Entry, items: seq<Item>)
    requires Sound(w, s) && target !in s.entries && entry.origin in w.files && !Loadable(Content(w, entry.origin))
    requires forall q | q in items :: q.member.Some?
    ensures AddedTo(w, s, Enlist(Put(s, target, entry), items), target, entry.origin)
  {
    PutKeeps(w, s, target, entry, items);
    AddedKeeps(w, s, Enlist(Put(s, target, entry), items), target, entry.origin);
  }

  // ----- where a planned file comes from -----

  /** What planning a file writes into the tables: its entry, unless the target has one and no package is given,
      and, for a new file that can be loaded and has a SONAME, who owns that. */
  ghost predicate Placed(w: World, s: Plan, t: Plan, target: string, file: string, package: Option<string>) {
    var content := Content(w, file);
    var named := target !in s.entries && Loadable(content) && w.elf(content).Some? && w.elf(content).value.soname != "";
    && t.entries == (if target in s.entries && package.None? then s.entries
                     else s.entries[target := Entry(file, package)])
    && t.sonames == (if named then s.sonames[w.elf(content).value.soname := Owner(file, target, package)]
                     else s.sonames)
  }

  /** One of the packages installs the file as the target. */
  ghost predicate FromPackage(w: World, target: string, origin: string, package: Option<string>, packages: set<string>)
  {
    && package.Some? && package.value in packages && package.value in w.lock && w.lock[package.value].files.Some?
    && exists f :: f in w.lock[package.value].files.value && w.relative(f.target) == Some(target)
                   && w.resolved(f.origin) == origin
  }

  /** The target is the place of the file in the source. */
  ghost predicate FromSource(w: World, target: string, origin: string, package: Option<string>) {
    && package.None?
    && exists path :: path in w.files && w.inSource(path).Some? && w.relative(w.inSource(path).value) == Some(target)
                      && w.resolved(path) == origin
  }

  /** Every entry and every SONAME that is new or has changed comes from one of the packages, and names it, or
      else, where that is possible, from the source. */
  ghost predicate Brought(w: World, s: Plan, t: Plan, packages: set<string>, local: bool) {
    && (forall x | x in t.entries ::
          || (x in s.entries && t.entries[x] == s.entries[x])
          || FromPackage(w, x, t.entries[x].origin, t.entries[x].package, packages)
          || (local && FromSource(w, x, t.entries[x].origin, t.entries[x].package)))
    && (forall n | n in t.sonames ::
          || (n in s.sonames && t.sonames[n] == s.sonames[n])
          || FromPackage(w, t.sonames[n].target, t.sonames[n].origin, t.sonames[n].package, packages)
          || (local && FromSource(w, t.sonames[n].target, t.sonames[n].origin, t.sonames[n].package)))
  }

  lemma PlacedIsBrought(w: World, s: Plan, t: Plan, target: string, file: string, package: Option<string>,
                        packages: set<string>, local: bool)
    requires Placed(w, s, t, target, file, package)
    requires FromPackage(w, target, file, package, packages) || (local && FromSource(w, target, file, package))
    ensures Brought(w, s, t, packages, local)
  {
  }

  lemma FileIsBrought(w: World, s: Plan, t: Plan, name: string, k: int)
    requires name in w.lock && w.lock[name].files.Some? && 0 <= k < |w.lock[name].files.value|
    requires var f := w.lock[name].files.value[k];
             w.relative(f.target).Some? && Placed(w, s, t, w.relative(f.target).value, w.resolved(f.origin), Some(name))
    ensures Brought(w, s, t, {name}, false)
  {
    var f := w.lock[name].files.value[k];
    assert f in w.lock[name].files.value;
    PlacedIsBrought(w, s, t, w.relative(f.target).value, w.resolved(f.origin), Some(name), {name}, false);
  }

  lemma BroughtOn(w: World, s: Plan, t: Plan, u: Plan, first: set<string>, next: set<string>, all: set<string>,
                  local: bool)
    requires Brought(w, s, t, first, local) && Brought(w, t, u, next, local) && first <= all && next <= all
    ensures Brought(w, s, u, all, local)
  {
    forall x | x in u.entries && !(x in s.entries && u.entries[x] == s.entries[x])
      ensures FromPackage(w, x, u.entries[x].origin, u.entries[x].package, all)
              || (local && FromSource(w, x, u.entries[x].origin, u.entries[x].package))
    {
      if x in t.entries && u.entries[x] == t.entries[x] {}
    }
    forall n | n in u.sonames && !(n in s.sonames && u.sonames[n] == s.sonames[n])
      ensures FromPackage(w, u.sonames[n].target, u.sonames[n].origin, u.sonames[n].package, all)
              || (local && FromSource(w, u.sonames[n].target, u.sonames[n].origin, u.sonames[n].package))
    {
      if n in t.sonames && u.sonames[n] == t.sonames[n] {}
    }
  }

  /** One more file of a package. */
  lemma NextIsBrought(w: World, s: Plan, t: Plan, u: Plan, name: string, k: int)
    requires name in w.lock && w.lock[name].files.Some? && 0 <= k < |w.lock[name].files.value|
    requires var f := w.lock[name].files.value[k];
             w.relative(f.target).Some? && Placed(w, t, u, w.relative(f.target).value, w.resolved(f.origin), Some(name))
    requires Brought(w, s, t, {name}, false)
    ensures Brought(w, s, u, {name}, false)
  {
    FileIsBrought(w, t, u, name, k);
    BroughtOn(w, s, t, u, {name}, {name}, {name}, false);
  }

  /** Packages have been copied, and what has been planned came from them. */
  ghost predicate Packed(w: World, s: Plan, t: Plan) {
    s.packages <= t.packages && Brought(w, s, t, t.packages - s.packages, false)
  }

  lemma PackedOn(w: World, s: Plan, t: Plan, u: Plan)
    requires Packed(w, s, t) && Packed(w, t, u)
    ensures Packed(w, s, u)
  {
    BroughtOn(w, s, t, u, t.packages - s.packages, u.packages - t.packages, u.packages - s.packages, false);
  }

  lemma PackageIsBrought(w: World, s: Plan, t: Plan, u: Plan, name: string)
    requires Packed(w, s, t) && Brought(w, t, u, {name}, false) && u.packages == t.packages && name !in t.packages
    ensures Packed(w, s, Finish(u, name))
  {
    BroughtOn(w, s, t, u, t.packages - s.packages, {name}, u.packages + {name} - s.packages, false);
  }

  /** What has been planned came from packages that have been copied, or from the source. */
  ghost predicate Sourced(w: World, s: Plan, t: Plan) {
    s.packages <= t.packages && Brought(w, s, t, t.packages - s.packages, true)
  }

  lemma SourcedOn(w: World, s: Plan, t: Plan, u: Plan)
    requires Sourced(w, s, t) && Sourced(w, t, u)
    ensures Sourced(w, s, u)
  {
    BroughtOn(w, s, t, u, t.packages - s.packages, u.packages - t.packages, u.packages - s.packages, true);
  }

  lemma PackedIsSourced(w: World, s: Plan, t: Plan)
    requires Packed(w, s, t)
    ensures Sourced(w, s, t)
  {
  }

  lemma FoundIsSourced(w: World, s: Plan, t: Plan, path: string)
    requires path in w.files && w.inSource(path).Some? && w.relative(w.inSource(path).value).Some?
    requires Placed(w, s, t, w.relative(w.inSource(path).value).value, w.resolved(path), None)
    requires t.packages == s.packages
    ensures Sourced(w, s, t)
  {
    PlacedIsBrought(w, s, t, w.relative(w.inSource(path).value).value, w.resolved(path), None, {}, true);
  }

  /** The libraries in a JAR have joined the queue. */
  ghost predicate InspectedTo(w: World, s: Plan, t: Plan, file: string) {
    !Elf(Content(w, file)) && w.isJar(file) ==>
      w.jar(Content(w, file)).Some? && t.queued == s.queued + Natives(w, file, w.jar(Content(w, file)).value)
  }

  predicate MemberFits(w: World, m: Member) {
    m.library ==> m.size <= MEMBER_LIMIT && (w.linux(m.name, m.content) ==> w.elf(m.content).Some?)
  }

  ghost predicate AllMembersFit(w: World, members: seq<Member>) {
    forall m | m in members :: MemberFits(w, m)
  }

  /** The members, which all fit, have joined the queue. */
  ghost predicate Enlisted(w: World, s: Plan, t: Plan, file: string, members: seq<Member>) {
    AllMembersFit(w, members) && t == Enlist(s, Natives(w, file, members))
  }

  lemma EnlistedMore(w: World, s: Plan, t: Plan, file: string, members: seq<Member>, k: int)
    requires 0 <= k < |members| && Enlisted(w, s, t, file, members[..k]) && MemberFits(w, members[k])
    ensures Enlisted(w, s, Enlist(t, Native(w, file, members[k])), file, members[..k + 1])
  {
    NextMember(w, file, members, k);
    forall m | m in members[..k + 1] ensures MemberFits(w, m) {
      var i :| 0 <= i < k + 1 && members[..k + 1][i] == m;
      assert i < k ==> members[..k][i] == m;
    }
  }

  /** The file can be planned for the target. */
  ghost predicate Fits(w: World, s: Plan, file: string, target: string, inspectJars: bool) {
    var content := Content(w, file);
    if target in s.entries then Holds(w, s, target, file)
    else if Loadable(content) then w.elf(content).Some? && !NameIsTaken(w, s, file)
    else !Elf(content) && inspectJars && w.isJar(file) ==>
        w.jar(content).Some? && AllMembersFit(w, w.jar(content).value)
  }

  /** The file has the SONAME of a planned file with another content. */
  ghost predicate NameIsTaken(w: World, s: Plan, file: string) {
    && Loadable(Content(w, file)) && w.elf(Content(w, file)).Some?
    && !FreeName(w, s, w.elf(Content(w, file)).value.soname, file)
  }

  /** chain is the packages being copied, none of which is finished. */
  ghost predicate Following(copying: set<string>, packages: set<string>, chain: seq<string>) {
    (forall p :: p in copying <==> p in chain) && copying !! packages
  }

  /** Packages, and with them files, have been added to the plan. */
  ghost predicate CopiedTo(w: World, s: Plan, t: Plan) {
    Sound(w, t) && Grows(w, s, t) && t.edges == s.edges && s.packages <= t.packages && Within(w, s, t)
  }

  lemma CopiedNothing(w: World, s: Plan, name: string)
    requires Sound(w, s) && name in s.packages
    ensures CopiedTo(w, s, s) && !CycleFrom(w, name)
  {
    LayeredHasNoCycle(w, s.copied, name);
  }

  lemma GrowsByNothing(w: World, s: Plan)
    requires Sound(w, s)
    ensures CopiedTo(w, s, s) && FilesPlanned(w, s, [])
  {
  }

  lemma CopiedMore(w: World, s: Plan, t: Plan, u: Plan)
    requires CopiedTo(w, s, t) && CopiedTo(w, t, u)
    ensures CopiedTo(w, s, u)
  {
    GrowsOn(w, s, t, u);
  }

  lemma PackageAdded(w: World, s: Plan, t: Plan, u: Plan, name: string)
    requires CopiedTo(w, s, t) && CopiedTo(w, t, u) && SameRest(t, u) && Copied(w, u, name) && name !in t.packages
    requires forall d | d in w.lock[name].dependencies :: d in t.packages
    ensures CopiedTo(w, s, Finish(u, name))
  {
    GrowsOn(w, s, t, u);
    FinishKeeps(w, u, name);
    GrowsOn(w, s, u, Finish(u, name));
  }

  lemma FileAdded(w: World, s: Plan, t: Plan, u: Plan, name: string, k: int)
    requires Settled(w) && name in w.lock && w.lock[name].files.Some? && 0 <= k < |w.lock[name].files.value|
    requires CopiedTo(w, s, t) && SameRest(s, t) && FilesPlanned(w, t, w.lock[name].files.value[..k])
    requires var f := w.lock[name].files.value[k];
             w.relative(f.target).Some? && AddedTo(w, t, u, w.relative(f.target).value, w.resolved(f.origin))
    ensures CopiedTo(w, s, u) && SameRest(s, u) && FilesPlanned(w, u, w.lock[name].files.value[..k + 1])
  {
    var files := w.lock[name].files.value;
    assert files[k] in files && Normal(w, files[k].target);
    assert files[k].target in PackageTargets(w);
    GrowsOn(w, s, t, u);
    forall f | f in files[..k + 1] ensures Holds(w, u, f.target, w.resolved(f.origin)) {
      if f in files[..k] {
        assert Holds(w, t, f.target, w.resolved(f.origin));
        HoldsOn(w, t, u, f.target, w.resolved(f.origin));
      }
    }
  }

  // ----- when copying can only fail on a cycle -----

  /** Packages and source files that may come to be planned, and a condition on the items that may come to be
      queued. */
  datatype Reach = Reach(packages: set<string>, sources: set<string>, good: Item -> bool)

  /** The packages load, and require only each other. */
  ghost predicate Loads(w: World, reach: Reach) {
    forall p | p in reach.packages ::
      p in w.lock && w.lock[p].files.Some? && forall d | d in w.lock[p].dependencies :: d in reach.packages
  }

  ghost predicate InReach(w: World, reach: Reach, f: Payload) {
    || (exists p :: p in reach.packages && p in w.lock && w.lock[p].files.Some? && f in w.lock[p].files.value)
    || (f.origin in reach.sources && w.inSource(f.origin) == Some(f.target))
  }

  ghost function Brings(w: World, f: Payload): seq<byte> { Content(w, w.resolved(f.origin)) }

  /** The two files can be planned together. */
  ghost predicate Compatible(w: World, f: Payload, g: Payload) {
    w.relative(f.target) == w.relative(g.target) || SameName(w, Brings(w, f), Brings(w, g)) ==>
      Brings(w, f) == Brings(w, g)
  }

  /** The files in reach can all be planned together. */
  ghost predicate Harmonious(w: World, reach: Reach) {
    && (forall f | InReach(w, reach, f) :: Readable(w, f.origin, f.target))
    && forall f, g | InReach(w, reach, f) && InReach(w, reach, g) :: Compatible(w, f, g)
  }

  /** Each of the files fits the plan as it is. */
  ghost predicate FitIn(w: World, s: Plan, reach: Reach) {
    forall f | InReach(w, reach, f) :: Readable(w, f.origin, f.target)
                                       && Fits(w, s, w.resolved(f.origin), w.relative(f.target).value, false)
  }

  /** The item that planning the file queues, when it queues one. */
  ghost function ItemOf(w: World, file: string): Option<Item> {
    var content := Content(w, file);
    if Loadable(content) && w.elf(content).Some? then Some(Item(file, None, w.elf(content).value)) else None
  }

  ghost predicate GoodFiles(w: World, reach: Reach) {
    forall f | InReach(w, reach, f) && ItemOf(w, w.resolved(f.origin)).Some? ::
      reach.good(ItemOf(w, w.resolved(f.origin)).value)
  }

  ghost predicate GoodQueue(s: Plan, reach: Reach) { forall q | q in s.queued :: reach.good(q) }

  ghost predicate Ready(w: World, s: Plan, reach: Reach) {
    && RejectsObjects(w) && Loads(w, reach) && Harmonious(w, reach) && FitIn(w, s, reach)
    && GoodFiles(w, reach) && GoodQueue(s, reach)
  }

  /** Planning the file has queued its item, or nothing. */
  ghost predicate QueuedOnly(w: World, s: Plan, t: Plan, file: string) {
    t.queued == s.queued || (ItemOf(w, file).Some? && t.queued == s.queued + [ItemOf(w, file).value])
  }

  lemma StillFits(w: World, s: Plan, t: Plan, f: Payload, g: Payload)
    requires Sound(w, s) && RejectsObjects(w) && Compatible(w, f, g)
    requires Readable(w, f.origin, f.target) && Readable(w, g.origin, g.target)
    requires AddedTo(w, s, t, w.relative(g.target).value, w.resolved(g.origin))
    requires Fits(w, s, w.resolved(f.origin), w.relative(f.target).value, false)
    ensures Fits(w, t, w.resolved(f.origin), w.relative(f.target).value, false)
  {
    var target, file := w.relative(f.target).value, w.resolved(f.origin);
    if target in s.entries {
      HoldsOn(w, s, t, target, file);
    } else if target !in t.entries && Loadable(Content(w, file)) {
      NameIsStillFree(w, s, t, f, g);
    }
  }

  lemma NameIsStillFree(w: World, s: Plan, t: Plan, f: Payload, g: Payload)
    requires Sound(w, s) && RejectsObjects(w) && Compatible(w, f, g) && Loadable(Brings(w, f))
             && w.elf(Brings(w, f)).Some?
    requires w.relative(g.target).Some? && AddedTo(w, s, t, w.relative(g.target).value, w.resolved(g.origin))
    requires !NameIsTaken(w, s, w.resolved(f.origin))
    ensures !NameIsTaken(w, t, w.resolved(f.origin))
  {
    var n := w.elf(Brings(w, f)).value.soname;
    if n != "" && n in t.sonames {
      assert OwnerIsPlanned(w, t, n);
      var x, c := t.sonames[n].target, Content(w, t.sonames[n].origin);
      assert Loadable(c);
      if x in s.entries {
        assert Holds(w, t, x, s.entries[x].origin);
        assert Known(w, s, c);
      }
    }
  }

  /** Planning one of the files leaves the others fitting. */
  lemma ReadyOn(w: World, s: Plan, t: Plan, reach: Reach, g: Payload)
    requires Sound(w, s) && Ready(w, s, reach) && InReach(w, reach, g) && w.relative(g.target).Some?
    requires AddedTo(w, s, t, w.relative(g.target).value, w.resolved(g.origin))
             && QueuedOnly(w, s, t, w.resolved(g.origin))
    ensures Ready(w, t, reach)
  {
    forall f | InReach(w, reach, f)
      ensures Readable(w, f.origin, f.target) && Fits(w, t, w.resolved(f.origin), w.relative(f.target).value, false)
    {
      assert Compatible(w, f, g) && Readable(w, g.origin, g.target);
      StillFits(w, s, t, f, g);
    }
  }

  lemma FileIsReady(w: World, s: Plan, reach: Reach, name: string, k: int)
    requires name in w.lock && w.lock[name].files.Some? && 0 <= k < |w.lock[name].files.value|
    ensures var f := w.lock[name].files.value[k];
            Ready(w, s, reach) && name in reach.packages ==>
              && InReach(w, reach, f) && Readable(w, f.origin, f.target)
              && Fits(w, s, w.resolved(f.origin), w.relative(f.target).value, false)
  {
    var f := w.lock[name].files.value[k];
    if Ready(w, s, reach) && name in reach.packages {
      assert InReach(w, reach, f);
    }
  }

  lemma FileGoes(w: World, s: Plan, t: Plan, u: Plan, reach: Reach, name: string, k: int)
    requires Sound(w, t) && Keeps(w, s, t, reach, name)
    requires name in w.lock && w.lock[name].files.Some? && 0 <= k < |w.lock[name].files.value|
    requires var f := w.lock[name].files.value[k];
             && w.relative(f.target).Some? && AddedTo(w, t, u, w.relative(f.target).value, w.resolved(f.origin))
             && QueuedOnly(w, t, u, w.resolved(f.origin))
    ensures Keeps(w, s, u, reach, name)
  {
    if Ready(w, s, reach) && name in reach.packages {
      FileIsReady(w, t, reach, name, k);
      ReadyOn(w, t, u, reach, w.lock[name].files.value[k]);
    }
  }

  ghost predicate Keeps(w: World, s: Plan, t: Plan, reach: Reach, name: string) {
    Ready(w, s, reach) && name in reach.packages ==> Ready(w, t, reach)
  }

  /** The plans differ in nothing that matters for fitting. */
  lemma ReadySame(w: World, s: Plan, t: Plan, reach: Reach)
    requires t.entries == s.entries && t.sonames == s.sonames && t.queued == s.queued
    ensures Ready(w, s, reach) ==> Ready(w, t, reach)
  {
    forall f | Ready(w, s, reach) && InReach(w, reach, f)
      ensures Readable(w, f.origin, f.target)
              && Fits(w, t, w.resolved(f.origin), w.relative(f.target).value, false)
    {
      assert Fits(w, s, w.resolved(f.origin), w.relative(f.target).value, false);
    }
  }

  /** When everything in reach is ready, copying from it succeeds, or fails on a cycle. */
  ghost predicate Goes(w: World, s: Plan, t: Plan, reach: Reach, name: string, r: Outcome) {
    Ready(w, s, reach) && name in reach.packages ==> if r.Ok? then Ready(w, t, reach) else r.failure.Cycle?
  }

  lemma GoesOn(w: World, s: Plan, t: Plan, u: Plan, reach: Reach, name: string, next: string, r: Outcome)
    requires Requires(w, name, next) && Goes(w, s, t, reach, name, Ok) && Goes(w, t, u, reach, next, r)
    ensures Goes(w, s, u, reach, name, r)
  {
  }

  /** The first k packages that one requires are copied. */
  ghost predicate HasRequired(w: World, s: Plan, t: Plan, name: string, k: int, reach: Reach)
    requires name in w.lock && 0 <= k <= |w.lock[name].dependencies|
  {
    && CopiedTo(w, s, t) && Goes(w, s, t, reach, name, Ok)
    && forall j | 0 <= j < k :: w.lock[name].dependencies[j] in t.packages
  }

  lemma RequiredMore(w: World, s: Plan, t: Plan, u: Plan, name: string, k: int, reach: Reach)
    requires name in w.lock && 0 <= k < |w.lock[name].dependencies| && HasRequired(w, s, t, name, k, reach)
    requires CopiedTo(w, t, u) && Goes(w, s, u, reach, name, Ok) && w.lock[name].dependencies[k] in u.packages
    ensures HasRequired(w, s, u, name, k + 1, reach)
  {
    CopiedMore(w, s, t, u);
  }

  lemma NextInChain(w: World, chain: seq<string>, name: string, next: string)
    requires Chain(w, chain + [name]) && Requires(w, name, next)
    ensures Chain(w, chain + [name] + [next]) && (chain + [name] + [next])[0] == (chain + [name])[0]
  {
    var p, q := chain + [name], chain + [name] + [next];
    forall j | 0 < j < |q| ensures Requires(w, q[j - 1], q[j]) {
      if j < |p| { assert Requires(w, p[j - 1], p[j]); }
    }
  }

  /** Every name a file can be asked for is looked up in the same order: provided modules, planned SONAMEs,
      files of the source, locked packages. */
  ghost predicate Answers(w: World, s: Plan, needed: string, paths: seq<string>, provider: Provider) {
    var name := w.base(needed);
    if name in w.provided then provider == Module(name)
    else if '/' !in needed && name in s.sonames then
      provider == Planned(s.sonames[name].target, s.sonames[name].package)
    else if exists k :: FirstEligible(w, paths, k) then
      exists k :: FirstEligible(w, paths, k) && ReadableElf(w, w.resolved(paths[k]))
                  && provider == Planned(w.inSource(w.resolved(paths[k])).value, None)
    else needed in w.libraries && provider == Planned(w.libraries[needed].target, Some(w.libraries[needed].package))
  }

  ghost predicate Unresolvable(w: World, s: Plan, needed: string, paths: seq<string>) {
    && w.base(needed) !in w.provided && ('/' in needed || w.base(needed) !in s.sonames)
    && ValidName(needed) && (forall k :: !FirstEligible(w, paths, k)) && needed !in w.libraries
  }

  /** One edge has been added, to the provider of the name. */
  ghost predicate ResolvedTo(w: World, s: Plan, t: Plan, from: string, needed: string, paths: seq<string>) {
    && Sound(w, t) && Grows(w, s, t) && Within(w, s, t)
    && |t.edges| == |s.edges| + 1 && s.edges <= t.edges && t.edges[|s.edges|].from == from
        && t.edges[|s.edges|].needed == needed
    && Answers(w, s, needed, paths, t.edges[|s.edges|].provider)
  }

  lemma FoundAdded(w: World, s: Plan, t: Plan, path: string, file: string)
    requires Settled(w) && path in w.files && w.inSource(path).Some? && w.relative(w.inSource(path).value).Some?
    requires AddedTo(w, s, t, w.relative(w.inSource(path).value).value, file)
    ensures CopiedTo(w, s, t) && w.inSource(path).value in t.entries
  {
    assert Normal(w, w.inSource(path).value);
    assert w.inSource(path).value in SourceTargets(w);
  }

  lemma Linked(w: World, s: Plan, t: Plan, e: Edge)
    requires CopiedTo(w, s, t) && Anchored(w, t, e) && Due(s, e.from, e.needed)
    ensures Sound(w, Link(t, e)) && Grows(w, s, Link(t, e)) && Within(w, s, Link(t, e))
  {
    DueOn(w, s, t, e.from, e.needed);
    LinkKeeps(w, t, e);
    GrowsOn(w, s, t, Link(t, e));
  }

  lemma LinkResolves(w: World, s: Plan, t: Plan, e: Edge, paths: seq<string>)
    requires CopiedTo(w, s, t) && Anchored(w, t, e) && Due(s, e.from, e.needed) && Sourced(w, s, t)
    requires Answers(w, s, e.needed, paths, e.provider)
    ensures ResolvedTo(w, s, Link(t, e), e.from, e.needed, paths) && Sourced(w, s, Link(t, e))
  {
    Linked(w, s, t, e);
  }

  /** Edges, and whatever their providers brought, have been added. */
  ghost predicate AnsweredTo(w: World, s: Plan, t: Plan) {
    Sound(w, t) && Grows(w, s, t) && Within(w, s, t) && s.edges <= t.edges
  }

  /** The first k names an item needs have edges, and so have all other labels. */
  ghost predicate AnsweredUpTo(w: World, s: Plan, item: Item, k: int) {
    && Label(item) in s.seen && IsFirst(s.queued, item) && Answered(s.queued, s.edges, s.seen - {Label(item)})
    && 0 <= k <= |Needs(item.info)| && forall j | 0 <= j < k :: HasEdge(s.edges, Label(item), Needs(item.info)[j])
  }

  /** The item is the first with its label, and the labels seen before it are answered. */
  ghost predicate Taken(w: World, s: Plan, item: Item) {
    && Sound(w, s) && Label(item) in s.seen && IsFirst(s.queued, item)
    && Answered(s.queued, s.edges, s.seen - {Label(item)})
  }

  /** Everything the item needs has been resolved. */
  ghost predicate Concluded(w: World, s: Plan, t: Plan, item: Item) {
    AnsweredTo(w, s, t) && Answered(t.queued, t.edges, t.seen) && (Needs(item.info) == [] ==> t == s)
  }

  lemma StillDue(s: Plan, item: Item, k: int)
    requires Label(item) in s.seen && IsFirst(s.queued, item) && 0 <= k < |Needs(item.info)|
    ensures Due(s, Label(item), Needs(item.info)[k])
  {
  }

  lemma AnsweredOne(w: World, s: Plan, t: Plan, u: Plan, item: Item, k: int, paths: seq<string>)
    requires AnsweredTo(w, s, t) && Sound(w, t) && AnsweredUpTo(w, t, item, k) && k < |Needs(item.info)|
    requires ResolvedTo(w, t, u, Label(item), Needs(item.info)[k], paths)
    ensures AnsweredTo(w, s, u) && AnsweredUpTo(w, u, item, k + 1)
  {
    GrowsOn(w, s, t, u);
    IsFirstOn(w, t, u, item);
    AnsweredOn(w, t, u, t.seen - {Label(item)});
    forall j | 0 <= j < k + 1 ensures HasEdge(u.edges, Label(item), Needs(item.info)[j]) {
      if j < k {
        HasEdgeOn(t.edges, u.edges, Label(item), Needs(item.info)[j]);
      } else {
        assert u.edges[|t.edges|] in u.edges;
      }
    }
  }

  lemma AskKeeps(w: World, s: Plan, q: Question)
    requires Sound(w, s)
    ensures Sound(w, s.(asked := s.asked + {q}))
  {
    var t := s.(asked := s.asked + {q});
    SameElves(w, s, t);
    forall a | a in t.added ensures Holds(w, t, a.target, a.origin) { assert Holds(w, s, a.target, a.origin); }
    forall p | p in t.copied ensures Copied(w, t, p) {
      assert Copied(w, s, p);
      SameCopied(w, s, t, p);
    }
    forall e | e in t.edges
      ensures Anchored(w, t, e)
      ensures Question(e.from, e.needed) in t.asked || (e.from in t.seen && NeededFirst(t.queued, e.from, e.needed))
    {
      assert Anchored(w, s, e);
    }
    assert Queue(t) by { assert Popped(t) == Popped(s); }
  }

  /** The first item with each label needs nothing. */
  ghost predicate Idle(queued: seq<Item>) {
    forall l, n :: !NeededFirst(queued, l, n)
  }

  /** While dependencies are closed: every label seen is answered, and nothing has been lost. */
  ghost predicate Closing(w: World, s: Plan, t: Plan) {
    && Sound(w, t) && Answered(t.queued, t.edges, t.seen)
    && s.queued <= t.queued && s.edges <= t.edges && s.asked == t.asked && s.entries.Keys <= t.entries.Keys
    && (Idle(s.queued) ==> t.queued == s.queued && t.edges == s.edges)
    && (RejectsObjects(w) && AllFound(w, s) ==> AllFound(w, t))
  }

  lemma TakeItem(w: World, s: Plan, t: Plan)
    requires Closing(w, s, t) && t.pending != []
    ensures Label(t.pending[0]) in t.seen ==> Closing(w, s, Pop(t)) && Progress(w, t, Pop(t))
    ensures Label(t.pending[0]) !in t.seen ==> Taken(w, Pop(t), t.pending[0])
    ensures Label(t.pending[0]) !in t.seen && Idle(s.queued) ==> Needs(t.pending[0].info) == []
  {
    PopKeeps(w, t);
    var item := t.pending[0];
    if Label(item) in t.seen {
      assert Pop(t).seen == t.seen;
      SameFound(w, t, Pop(t));
    } else {
      assert Pop(t).seen - {Label(item)} == t.seen;
      if Needs(item.info) != [] {
        assert NeededFirst(t.queued, Label(item), Needs(item.info)[0]);
      }
    }
  }

  lemma SameFound(w: World, s: Plan, t: Plan)
    requires t.queued == s.queued && t.seen == s.seen && t.sonames == s.sonames
    ensures AllFound(w, s) ==> AllFound(w, t)
  {
    forall q, k | AllFound(w, s) && q in t.queued && IsFirst(t.queued, q) && Label(q) in t.seen
      ensures !StuckAt(w, t, q, k)
    {
      assert !StuckAt(w, s, q, k);
    }
  }

  lemma PoppedFound(w: World, t: Plan)
    requires t.pending != [] && AllFound(w, t)
    ensures FoundBefore(w, Pop(t), t.pending[0])
  {
    var s, item := Pop(t), t.pending[0];
    forall q, k | q in s.queued && IsFirst(s.queued, q) && Label(q) in s.seen && Label(q) != Label(item)
      ensures !StuckAt(w, s, q, k)
    {
      assert !StuckAt(w, t, q, k);
    }
  }

  lemma ItemAnswered(w: World, s: Plan, t: Plan, u: Plan)
    requires Closing(w, s, t) && t.pending != [] && Label(t.pending[0]) !in t.seen
    requires Concluded(w, Pop(t), u, t.pending[0]) && FoundUpTo(w, u, t.pending[0], |Needs(t.pending[0].info)|)
    requires Idle(s.queued) ==> Needs(t.pending[0].info) == []
    ensures Closing(w, s, u) && Progress(w, t, u)
  {
    FewerUnplanned(w, Pop(t), u);
    PopKeeps(w, t);
    if RejectsObjects(w) && AllFound(w, s) {
      var item := t.pending[0];
      assert Pop(t).seen - {Label(item)} == t.seen;
      PoppedFound(w, t);
      AllFoundOn(w, Pop(t), u, item);
    }
  }

  lemma AllAnswered(w: World, s: Plan, item: Item)
    requires AnsweredUpTo(w, s, item, |Needs(item.info)|)
    ensures Answered(s.queued, s.edges, s.seen)
  {
    AnsweredWith(s, item);
  }

  /** Either a target is planned that was not, or the queue is shorter. */
  ghost predicate Progress(w: World, s: Plan, t: Plan) {
    Unplanned(w, t) < Unplanned(w, s) || (Unplanned(w, t) == Unplanned(w, s) && |t.pending| < |s.pending|)
  }

  // ----- when closing can only fail on a name without a provider -----

  ghost function PathsOf(w: World, q: Item, k: int): seq<string>
    requires 0 <= k < |Needs(q.info)|
  {
    w.candidates(Needs(q.info)[k], q.origin, RunpathsFor(q, k))
  }

  /** The interpreter is looked for without run paths. */
  function RunpathsFor(q: Item, k: int): seq<string> { if k < |q.info.needed| then q.info.runpaths else [] }

  /** The names on its list are looked for with the run paths of the item, and then its interpreter without. */
  lemma LookedForWith(w: World, q: Item, k: int)
    requires 0 <= k < |Needs(q.info)|
    ensures |Needs(q.info)| == |q.info.needed| + if q.info.interpreter == "" then 0 else 1
    ensures k < |q.info.needed| ==> && Needs(q.info)[k] == q.info.needed[k]
                                    && PathsOf(w, q, k) == w.candidates(q.info.needed[k], q.origin, q.info.runpaths)
    ensures k == |q.info.needed| ==> && Needs(q.info)[k] == q.info.interpreter
                                     && PathsOf(w, q, k) == w.candidates(q.info.interpreter, q.origin, [])
  {
  }

  /** Nothing provides the k-th name that the item needs. */
  ghost predicate StuckAt(w: World, s: Plan, q: Item, k: int) {
    0 <= k < |Needs(q.info)| && Unresolvable(w, s, Needs(q.info)[k], PathsOf(w, q, k))
  }

  /** Nothing provides a name that the first item with the label needs. */
  ghost predicate Stuck(w: World, s: Plan, from: string, needed: string) {
    exists q, k :: q in s.queued && IsFirst(s.queued, q) && Label(q) == from && StuckAt(w, s, q, k)
                   && Needs(q.info)[k] == needed
  }

  /** Whatever the name leads to is in reach and sound, if it leads anywhere. */
  ghost predicate NameFine(w: World, reach: Reach, needed: string, paths: seq<string>) {
    w.base(needed) in w.provided ||
    (&& ValidName(needed)
     && (forall k | FirstEligible(w, paths, k) ::
           ReadableElf(w, w.resolved(paths[k])) && w.resolved(paths[k]) in reach.sources)
     && (needed in w.libraries ==> LibraryFine(w, reach, w.libraries[needed])))
  }

  ghost predicate LibraryFine(w: World, reach: Reach, library: Library) {
    && library.package in reach.packages && library.package in w.lock && w.lock[library.package].files.Some?
    && exists f :: f in w.lock[library.package].files.value && f.target == library.target
  }

  ghost predicate FineItem(w: World, reach: Reach, q: Item) {
    forall k | 0 <= k < |Needs(q.info)| :: NameFine(w, reach, Needs(q.info)[k], PathsOf(w, q, k))
  }

  /** Everything in reach is ready, without requirement cycles, and leads only to what is in reach. */
  ghost predicate Prepared(w: World, s: Plan, reach: Reach) {
    && Ready(w, s, reach) && (forall p | p in reach.packages :: !CycleFrom(w, p))
    && forall q | reach.good(q) :: FineItem(w, reach, q)
  }

  /** Prepared work succeeds, or fails on a name without a provider. */
  ghost predicate Proceeds(w: World, s: Plan, t: Plan, reach: Reach, r: Outcome) {
    Prepared(w, s, reach) ==> if r.Ok? then Prepared(w, t, reach) else r.failure.Absent?
  }

  ghost predicate ProceedsFor(w: World, s: Plan, t: Plan, reach: Reach, needed: string, paths: seq<string>,
      r: Outcome) {
    NameFine(w, reach, needed, paths) ==> Proceeds(w, s, t, reach, r)
  }

  lemma PreparedSame(w: World, s: Plan, t: Plan, reach: Reach)
    requires t.entries == s.entries && t.sonames == s.sonames && t.queued == s.queued
    ensures Prepared(w, s, reach) ==> Prepared(w, t, reach)
  {
    ReadySame(w, s, t, reach);
  }

  lemma FoundProceeds(w: World, s: Plan, t: Plan, reach: Reach, needed: string, paths: seq<string>, k: int, r: Outcome)
    requires Sound(w, s) && w.base(needed) !in w.provided && FirstEligible(w, paths, k)
    requires var path := w.resolved(paths[k]);
             var target := w.inSource(path).value;
             && (r.Ok? <==> Readable(w, path, target) && Fits(w, s, w.resolved(path), w.relative(target).value, false))
             && (r.Ok? ==>
                 AddedTo(w, s, t, w.relative(target).value, w.resolved(path)) && QueuedOnly(w, s, t, w.resolved(path)))
    ensures ProceedsFor(w, s, t, reach, needed, paths, r)
  {
    var path := w.resolved(paths[k]);
    var f := Payload(w.inSource(path).value, path);
    if NameFine(w, reach, needed, paths) && Prepared(w, s, reach) {
      assert InReach(w, reach, f);
      assert Readable(w, f.origin, f.target) && Fits(w, s, w.resolved(f.origin), w.relative(f.target).value, false);
      ReadyOn(w, s, t, reach, f);
    }
  }

  /** Names that have a provider keep one. */
  lemma StaysResolvable(w: World, s: Plan, t: Plan, needed: string, paths: seq<string>)
    requires RejectsObjects(w) && Sound(w, s) && Sound(w, t) && Grows(w, s, t) && Unresolvable(w, t, needed, paths)
    ensures Unresolvable(w, s, needed, paths)
  {
    var n := w.base(needed);
    if n in s.sonames {
      assert OwnerIsPlanned(w, s, n);
      var x, c := s.sonames[n].target, Content(w, s.sonames[n].origin);
      assert Loadable(c) && Holds(w, t, x, s.entries[x].origin);
      assert Known(w, t, c);
    }
  }

  /** The first k names the item needs have providers. */
  ghost predicate FoundUpTo(w: World, s: Plan, q: Item, k: int) {
    RejectsObjects(w) ==> forall j | 0 <= j < k :: !StuckAt(w, s, q, j)
  }

  lemma FoundMore(w: World, s: Plan, t: Plan, q: Item, k: int)
    requires Sound(w, s) && Sound(w, t) && Grows(w, s, t) && FoundUpTo(w, s, q, k)
    ensures FoundUpTo(w, t, q, k)
    ensures !StuckAt(w, s, q, k) ==> FoundUpTo(w, t, q, k + 1)
  {
    forall j | RejectsObjects(w) && 0 <= j <= k && StuckAt(w, t, q, j) ensures StuckAt(w, s, q, j) {
      StaysResolvable(w, s, t, Needs(q.info)[j], PathsOf(w, q, j));
    }
  }

  /** All names that seen labels need have providers. */
  ghost predicate AllFound(w: World, s: Plan) {
    forall q, k | q in s.queued && IsFirst(s.queued, q) && Label(q) in s.seen :: !StuckAt(w, s, q, k)
  }

  lemma AllFoundOn(w: World, s: Plan, t: Plan, item: Item)
    requires RejectsObjects(w) && Sound(w, s) && Sound(w, t) && Grows(w, s, t) && IsFirst(s.queued, item)
    requires FoundBefore(w, s, item) && FoundUpTo(w, t, item, |Needs(item.info)|)
    ensures AllFound(w, t)
  {
    forall q, k | q in t.queued && IsFirst(t.queued, q) && Label(q) in t.seen ensures !StuckAt(w, t, q, k) {
      if Label(q) == Label(item) {
        IsFirstOn(w, s, t, item);
        assert q == item;
      } else {
        FirstIsOld(s, t, q);
        StaysFound(w, s, t, item, q, k);
      }
    }
  }

  /** All names that other seen labels need have providers. */
  ghost predicate FoundBefore(w: World, s: Plan, item: Item) {
    forall q, k | q in s.queued && IsFirst(s.queued, q) && Label(q) in s.seen && Label(q) != Label(item) ::
      !StuckAt(w, s, q, k)
  }

  lemma StaysFound(w: World, s: Plan, t: Plan, item: Item, q: Item, k: int)
    requires RejectsObjects(w) && Sound(w, s) && Sound(w, t) && Grows(w, s, t) && FoundBefore(w, s, item)
    requires q in s.queued && IsFirst(s.queued, q) && Label(q) in s.seen && Label(q) != Label(item)
    ensures !StuckAt(w, t, q, k)
  {
    assert !StuckAt(w, s, q, k);
    if StuckAt(w, t, q, k) {
      StaysResolvable(w, s, t, Needs(q.info)[k], PathsOf(w, q, k));
    }
  }

  /** The first item with a seen label was queued before. */
  lemma FirstIsOld(s: Plan, t: Plan, q: Item)
    requires Queue(s) && s.queued <= t.queued && Label(q) in s.seen && IsFirst(t.queued, q)
    ensures q in s.queued && IsFirst(s.queued, q)
  {
    var i :| 0 <= i < Popped(s) && Label(s.queued[i]) == Label(q);
    FirstExists(s.queued, i);
    FirstOn(s.queued, t.queued, Label(q));
  }

  lemma NothingIsStuck(w: World, s: Plan)
    requires Queue(s) && s.pending == [] && AllFound(w, s)
    ensures forall from, needed :: !Stuck(w, s, from, needed)
  {
    forall q | q in s.queued ensures Label(q) in s.seen {
      var i :| 0 <= i < |s.queued| && s.queued[i] == q;
      assert i < Popped(s);
    }
  }

  lemma ProceedsOn(w: World, s: Plan, t: Plan, u: Plan, reach: Reach, item: Item, k: int, r: Outcome)
    requires 0 <= k < |Needs(item.info)| && (reach.good(item) ==> Proceeds(w, s, t, reach, Ok))
    requires ProceedsFor(w, t, u, reach, Needs(item.info)[k], PathsOf(w, item, k), r)
    ensures reach.good(item) ==> Proceeds(w, s, u, reach, r)
  {
    if reach.good(item) && Prepared(w, s, reach) {
      assert FineItem(w, reach, item);
    }
  }

  lemma ProceedsThen(w: World, s: Plan, t: Plan, u: Plan, reach: Reach, r: Outcome)
    requires Proceeds(w, s, t, reach, Ok) && Proceeds(w, t, u, reach, r)
    ensures Proceeds(w, s, u, reach, r)
  {
  }

  lemma StuckHere(w: World, s: Plan, item: Item, k: int)
    requires 0 <= k < |Needs(item.info)| && IsFirst(s.queued, item)
    ensures Unresolvable(w, s, Needs(item.info)[k], PathsOf(w, item, k)) ==>
              Stuck(w, s, Label(item), Needs(item.info)[k])
  {
    if Unresolvable(w, s, Needs(item.info)[k], PathsOf(w, item, k)) {
      assert StuckAt(w, s, item, k) && item in s.queued;
    }
  }

  lemma NextIsGood(w: World, s: Plan, reach: Reach)
    requires Queue(s) && s.pending != []
    ensures Prepared(w, s, reach) ==> reach.good(s.pending[0])
  {
    assert s.pending[0] == s.queued[Popped(s)];
  }

  lemma AllProvided(w: World, s: Plan, t: Plan)
    requires Closing(w, s, t) && t.pending == []
    ensures RejectsObjects(w) && AllFound(w, s) ==> forall from, needed :: !Stuck(w, t, from, needed)
  {
    if RejectsObjects(w) && AllFound(w, s) {
      NothingIsStuck(w, t);
    }
  }
}
