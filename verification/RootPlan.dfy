/** The planner of a guest root: files are added, packages copied with what they require, and the names
    that ELF files need resolved, until everything that was queued has been looked at. */
module RootPlanning {
  import opened Frames
  import opened Spans
  import opened Installation
  import opened Plans
  import opened RootSteps

  class RootPlan {
    const w: World
    var entries: map<string, Entry>
    var pending: seq<Item>
    var seen: set<string>
    var edges: seq<Edge>
    var sonames: map<string, Owner>
    var packages: set<string>
    var copying: set<string>
    ghost var queued: seq<Item>
    ghost var added: seq<Addition>
    ghost var copied: seq<string>
    ghost var asked: set<Question>

    ghost function Now(): Plan
      reads this
    {
      Plan(entries, pending, seen, edges, sonames, packages, queued, added, copied, asked)
    }

    constructor (world: World)
      ensures w == world && Now() == EMPTY && Sound(w, Now()) && copying == {}
    {
      w := world;
      entries, pending, seen, edges, sonames := map[], [], {}, [], map[];
      packages, copying, queued, added, copied, asked := {}, {}, [], [], [], {};
      EmptyIsSound(world);
    }

    /** Plans target from origin. A loadable ELF file takes its SONAME and joins the queue, as do the
        libraries in a JAR that is to be inspected. */
    method Add(origin: string, target: string, package: Option<string>, inspectJars: bool) returns (r: Outcome)
      requires Sound(w, Now())
      modifies this
      ensures r.Ok? ==> Readable(w, origin, target) && copying == old(copying)
                        && AddedTo(w, old(Now()), Now(), w.relative(target).value, w.resolved(origin))
      ensures r.Ok? ==> Placed(w, old(Now()), Now(), w.relative(target).value, w.resolved(origin), package)
      ensures r.Ok? && !inspectJars ==> QueuedOnly(w, old(Now()), Now(), w.resolved(origin))
      ensures r.Ok? && inspectJars && Readable(w, origin, target) && w.relative(target).value !in old(entries)
              ==> InspectedTo(w, old(Now()), Now(), w.resolved(origin))
      ensures (r.Failed? && r.failure.TwoFiles?) <==>
              Readable(w, origin, target) && w.relative(target).value in old(entries)
              && !Holds(w, old(Now()), w.relative(target).value, w.resolved(origin))
      ensures (r.Failed? && r.failure.TwoProviders?) <==>
              Readable(w, origin, target) && w.relative(target).value !in old(entries)
              && NameIsTaken(w, old(Now()), w.resolved(origin))
      ensures r.Ok? <==>
              Readable(w, origin, target)
                  && Fits(w, old(Now()), w.resolved(origin), w.relative(target).value, inspectJars)
      ensures r.Failed? ==> OfFiles(r.failure)
    {
      var file := w.resolved(origin);
      var relative := w.relative(target);
      if relative.None? {
        return Failed(BadTarget(target));
      }
      if file !in w.files {
        return Failed(Missing(file));
      }
      if !w.allowed(file) {
        return Failed(Outside(file));
      }
      if relative.value in entries {
        r := AddAgain(file, relative.value, package);
      } else {
        r := AddNew(file, relative.value, package, inspectJars);
      }
    }

    /** A target that is planned already: the content has to be the same. */
    method AddAgain(file: string, target: string, package: Option<string>) returns (r: Outcome)
      requires Sound(w, Now()) && target in entries && file in w.files
      modifies this
      ensures r == if Holds(w, old(Now()), target, file) then Ok else Failed(TwoFiles(target))
      ensures r.Ok? ==> AddedTo(w, old(Now()), Now(), target, file) && copying == old(copying)
      ensures r.Ok? ==> Placed(w, old(Now()), Now(), target, file, package)
      ensures queued == old(queued)
    {
      ghost var before := Now();
      if Content(w, entries[target].origin) != w.files[file] {
        return Failed(TwoFiles(target));
      }
      added := added + [Addition(file, target)];
      if package.Some? {
        entries := entries[target := Entry(file, package)];
        ReplaceKeeps(w, before, target, Entry(file, package));
      } else {
        AgainKeeps(w, before, target, file);
      }
      AddedKeeps(w, before, Now(), target, file);
      return Ok;
    }

    /** A new target, which is looked into. */
    method AddNew(file: string, target: string, package: Option<string>, inspectJars: bool) returns (r: Outcome)
      requires Sound(w, Now()) && target !in entries && file in w.files
      modifies this
      ensures r.Ok? ==> AddedTo(w, old(Now()), Now(), target, file) && copying == old(copying)
      ensures r.Ok? ==> Placed(w, old(Now()), Now(), target, file, package)
      ensures r.Ok? && !inspectJars ==> QueuedOnly(w, old(Now()), Now(), file)
      ensures r.Ok? && inspectJars ==> InspectedTo(w, old(Now()), Now(), file)
      ensures r.Ok? <==> Fits(w, old(Now()), file, target, inspectJars)
      ensures (r.Failed? && r.failure.TwoProviders?) <==> NameIsTaken(w, old(Now()), file)
      ensures r.Failed? ==> !r.failure.TwoFiles? && OfFiles(r.failure)
    {
      ghost var before := Now();
      var entry := Entry(file, package);
      entries := entries[target := entry];
      added := added + [Addition(file, target)];
      if Loadable(w.files[file]) {
        r := Register(before, target, entry);
        if r.Ok? {
          LoadAdds(w, before, target, entry, w.elf(w.files[file]).value);
        }
      } else {
        r := AddOther(before, target, entry, inspectJars);
      }
    }

    /** A new file that is not loadable, perhaps with libraries in it. */
    method AddOther(ghost before: Plan, target: string, entry: Entry, inspectJars: bool) returns (r: Outcome)
      requires Sound(w, before) && target !in before.entries && entry.origin in w.files
      requires !Loadable(w.files[entry.origin]) && Now() == Put(before, target, entry)
      modifies this
      ensures r.Ok? ==> AddedTo(w, before, Now(), target, entry.origin) && copying == old(copying)
      ensures r.Ok? ==> entries == old(entries) && sonames == old(sonames)
      ensures r.Ok? && !inspectJars ==> queued == before.queued
      ensures r.Ok? && inspectJars ==> InspectedTo(w, before, Now(), entry.origin)
      ensures r.Ok? <==> Fits(w, before, entry.origin, target, inspectJars)
      ensures r.Failed? ==> !r.failure.TwoFiles? && !r.failure.TwoProviders? && OfFiles(r.failure)
    {
      var file := entry.origin;
      if !Elf(w.files[file]) && inspectJars && w.isJar(file) {
        r := Inspect(file, w.files[file]);
        if r.Ok? {
          PutAdds(w, before, target, entry, Natives(w, file, w.jar(w.files[file]).value));
        }
      } else {
        PutAdds(w, before, target, entry, []);
        assert Now() == Enlist(Put(before, target, entry), []);
        return Ok;
      }
    }

    /** Gives a new loadable file its SONAME and queues it. */
    method Register(ghost before: Plan, target: string, entry: Entry) returns (r: Outcome)
      requires entry.origin in w.files && Loadable(w.files[entry.origin]) && Now() == Put(before, target, entry)
      modifies this
      ensures r.Ok? ==>
              w.elf(w.files[entry.origin]).Some?
                  && FreeName(w, before, w.elf(w.files[entry.origin]).value.soname, entry.origin)
      ensures r.Ok? ==>
              Now() == Load(before, target, entry, w.elf(w.files[entry.origin]).value) && copying == old(copying)
      ensures r.Failed? ==> r.failure.BadElf? || (r.failure.TwoProviders? && NameIsTaken(w, before, entry.origin))
      ensures r.Failed? && r.failure.BadElf? ==> w.elf(w.files[entry.origin]).None?
    {
      var file := entry.origin;
      var info := w.elf(w.files[file]);
      if info.None? {
        return Failed(BadElf(file));
      }
      var soname := info.value.soname;
      if soname != "" {
        if soname in sonames && Content(w, sonames[soname].origin) != w.files[file] {
          return Failed(TwoProviders(soname));
        }
        sonames := sonames[soname := Owner(file, target, entry.package)];
      }
      pending := pending + [Item(file, None, info.value)];
      queued := queued + [Item(file, None, info.value)];
      return Ok;
    }

    /** Queues the libraries in a JAR. */
    method Inspect(file: string, content: seq<byte>) returns (r: Outcome)
      modifies this
      ensures r.Ok? <==> w.jar(content).Some? && AllMembersFit(w, w.jar(content).value)
      ensures r.Ok? ==> Now() == Enlist(old(Now()), Natives(w, file, w.jar(content).value))
      ensures r.Ok? ==> copying == old(copying)
      ensures r.Failed? ==> !r.failure.TwoFiles? && !r.failure.TwoProviders? && OfFiles(r.failure)
    {
      var archive := w.jar(content);
      if archive.None? {
        return Failed(BadJar(file));
      }
      var members, k := archive.value, 0;
      while k < |members|
        invariant 0 <= k <= |members| && copying == old(copying)
        invariant Enlisted(w, old(Now()), Now(), file, members[..k])
      {
        ghost var before := Now();
        r := InspectMember(file, members[k]);
        if r.Failed? {
          return;
        }
        EnlistedMore(w, old(Now()), before, file, members, k);
        k := k + 1;
      }
      assert members[..k] == members;
      return Ok;
    }

    method InspectMember(file: string, m: Member) returns (r: Outcome)
      modifies this
      ensures r.Ok? <==> MemberFits(w, m)
      ensures r.Ok? ==> Now() == Enlist(old(Now()), Native(w, file, m)) && copying == old(copying)
      ensures r.Failed? ==> !r.failure.TwoFiles? && !r.failure.TwoProviders? && OfFiles(r.failure)
    {
      if !m.library {
        return Ok;
      }
      if m.size > MEMBER_LIMIT {
        return Failed(LargeMember(file, m.name));
      }
      if w.linux(m.name, m.content) {
        var info := w.elf(m.content);
        if info.None? {
          return Failed(BadElf(file));
        }
        pending := pending + [Item(file, Some(m.name), info.value)];
        queued := queued + [Item(file, Some(m.name), info.value)];
      }
      return Ok;
    }

    /** Copies a locked package after the packages it requires. chain is the requirements that are being
        followed; it is empty in a call from outside. */
    method CopyPackage(name: string, ghost chain: seq<string>, ghost reach: Reach) returns (r: Outcome)
      requires Sound(w, Now()) && Settled(w) && Chain(w, chain + [name]) && Following(copying, packages, chain)
      modifies this
      ensures r.Ok? ==> CopiedTo(w, old(Now()), Now()) && name in packages && copying == old(copying)
      ensures r.Ok? ==> Following(copying, packages, chain)
      ensures r.Ok? ==> Packed(w, old(Now()), Now())
      ensures r.Ok? ==> !CycleFrom(w, name)
      ensures Goes(w, old(Now()), Now(), reach, name, r)
      ensures chain == [] && Ready(w, old(Now()), reach) && name in reach.packages ==>
                (CycleFrom(w, name) <==> r.Failed? && r.failure.Cycle?) && (!CycleFrom(w, name) <==> r.Ok?)
      ensures r.Failed? ==> !r.failure.Absent? && (r.failure.Cycle? ==> CycleFrom(w, (chain + [name])[0]))
      decreases w.lock.Keys - copying, 0
    {
      if name in packages {
        CopiedNothing(w, Now(), name);
        return Ok;
      }
      if name in copying {
        BackEdgeIsCycle(w, chain, name);
        return Failed(Cycle(name));
      }
      copying := copying + {name};
      if name !in w.lock {
        return Failed(UnknownPackage(name));
      }
      r := CopyNew(name, chain, reach);
      if r.Ok? {
        CopiedNothing(w, Now(), name);
      }
    }

    /** A package that is not there yet: first what it requires, then its own files. */
    method CopyNew(name: string, ghost chain: seq<string>, ghost reach: Reach) returns (r: Outcome)
      requires Sound(w, Now()) && Settled(w) && Chain(w, chain + [name]) && name in w.lock
      requires Following(copying, packages, chain + [name]) && name !in chain
      modifies this
      ensures r.Ok? ==> CopiedTo(w, old(Now()), Now()) && name in packages
      ensures r.Ok? ==> copying == old(copying) - {name} && Following(copying, packages, chain)
      ensures r.Ok? ==> Packed(w, old(Now()), Now())
      ensures Goes(w, old(Now()), Now(), reach, name, r)
      ensures r.Failed? ==> !r.failure.Absent? && (r.failure.Cycle? ==> CycleFrom(w, (chain + [name])[0]))
      decreases w.lock.Keys - copying, 2
    {
      if w.lock[name].files.None? {
        return Failed(NotLoaded(name));
      }
      r := CopyRequired(name, chain, reach);
      if r.Failed? {
        return;
      }
      ghost var before := Now();
      r := AddFiles(name, reach);
      if r.Failed? {
        return;
      }
      PackageIsBrought(w, old(Now()), before, Now(), name);
      PackageAdded(w, old(Now()), before, Now(), name);
      ReadySame(w, Now(), Finish(Now(), name), reach);
      FinishPackage(name);
    }

    method FinishPackage(name: string)
      modifies this
      ensures Now() == Finish(old(Now()), name) && copying == old(copying) - {name}
    {
      copying := copying - {name};
      packages := packages + {name};
      copied := copied + [name];
    }

    method CopyRequired(name: string, ghost chain: seq<string>, ghost reach: Reach) returns (r: Outcome)
      requires Sound(w, Now()) && Settled(w) && Chain(w, chain + [name]) && name in w.lock
      requires Following(copying, packages, chain + [name])
      modifies this
      ensures r.Ok? ==>
              CopiedTo(w, old(Now()), Now()) && copying == old(copying) && Following(copying, packages, chain + [name])
      ensures r.Ok? ==> forall d | d in w.lock[name].dependencies :: d in packages
      ensures r.Ok? ==> Packed(w, old(Now()), Now())
      ensures Goes(w, old(Now()), Now(), reach, name, r)
      ensures r.Failed? ==> !r.failure.Absent? && (r.failure.Cycle? ==> CycleFrom(w, (chain + [name])[0]))
      decreases w.lock.Keys - copying, 1
    {
      var required, k := w.lock[name].dependencies, 0;
      GrowsByNothing(w, Now());
      while k < |required|
        invariant 0 <= k <= |required| && HasRequired(w, old(Now()), Now(), name, k, reach)
        invariant copying == old(copying) && Following(copying, packages, chain + [name])
        invariant Packed(w, old(Now()), Now())
      {
        ghost var before := Now();
        NextInChain(w, chain, name, required[k]);
        r := CopyPackage(required[k], chain + [name], reach);
        GoesOn(w, old(Now()), before, Now(), reach, name, required[k], r);
        if r.Failed? {
          return;
        }
        RequiredMore(w, old(Now()), before, Now(), name, k, reach);
        PackedOn(w, old(Now()), before, Now());
        k := k + 1;
      }
      return Ok;
    }

    method AddFiles(name: string, ghost reach: Reach) returns (r: Outcome)
      requires Sound(w, Now()) && Settled(w) && name in w.lock && w.lock[name].files.Some?
      modifies this
      ensures r.Ok? ==>
              CopiedTo(w, old(Now()), Now()) && SameRest(old(Now()), Now()) && Copied(w, Now(), name)
                  && copying == old(copying)
      ensures r.Ok? ==> Brought(w, old(Now()), Now(), {name}, false)
      ensures Keeps(w, old(Now()), Now(), reach, name)
      ensures Ready(w, old(Now()), reach) && name in reach.packages ==> r.Ok?
      ensures r.Failed? ==> OfFiles(r.failure)
    {
      var files := w.lock[name].files.value;
      var k := 0;
      GrowsByNothing(w, Now());
      while k < |files|
        invariant 0 <= k <= |files| && copying == old(copying)
        invariant CopiedTo(w, old(Now()), Now()) && SameRest(old(Now()), Now())
        invariant FilesPlanned(w, Now(), files[..k]) && Brought(w, old(Now()), Now(), {name}, false)
        invariant Keeps(w, old(Now()), Now(), reach, name)
      {
        ghost var before := Now();
        FileIsReady(w, before, reach, name, k);
        r := Add(files[k].origin, files[k].target, Some(name), false);
        if r.Failed? {
          return;
        }
        FileAdded(w, old(Now()), before, Now(), name, k);
        NextIsBrought(w, old(Now()), before, Now(), name, k);
        FileGoes(w, old(Now()), before, Now(), reach, name, k);
        k := k + 1;
      }
      assert files[..k] == files;
      return Ok;
    }

    /** Finds a provider of one name, and records it. */
    method Resolve(needed: string, origin: string, from: string, runpaths: seq<string>, ghost reach: Reach)
      returns (r: Outcome)
      requires Sound(w, Now()) && Settled(w) && copying == {} && Due(Now(), from, needed)
      modifies this
      ensures r.Ok? ==>
              ResolvedTo(w, old(Now()), Now(), from, needed, w.candidates(needed, origin, runpaths)) && copying == {}
      ensures r.Ok? ==> Sourced(w, old(Now()), Now())
      ensures (r.Failed? && r.failure.Absent?) <==>
              Unresolvable(w, old(Now()), needed, w.candidates(needed, origin, runpaths))
      ensures r.Failed? && r.failure.Absent? ==> Now() == old(Now()) && r.failure == Absent(from, needed)
      ensures ProceedsFor(w, old(Now()), Now(), reach, needed, w.candidates(needed, origin, runpaths), r)
    {
      ghost var before := Now();
      var provider;
      r, provider := FindProvider(needed, origin, from, runpaths, reach);
      if r.Ok? {
        LinkResolves(w, before, Now(), Edge(from, needed, provider), w.candidates(needed, origin, runpaths));
        PreparedSame(w, Now(), Link(Now(), Edge(from, needed, provider)), reach);
        edges := edges + [Edge(from, needed, provider)];
      }
    }

    method FindProvider(needed: string, origin: string, from: string, runpaths: seq<string>, ghost reach: Reach)
      returns (r: Outcome, provider: Provider)
      requires Sound(w, Now()) && Settled(w) && copying == {}
      modifies this
      ensures r.Ok? ==>
              CopiedTo(w, old(Now()), Now()) && Anchored(w, Now(), Edge(from, needed, provider)) && copying == {}
      ensures r.Ok? ==> Sourced(w, old(Now()), Now())
      ensures r.Ok? ==> Answers(w, old(Now()), needed, w.candidates(needed, origin, runpaths), provider)
      ensures (r.Failed? && r.failure.Absent?) <==>
              Unresolvable(w, old(Now()), needed, w.candidates(needed, origin, runpaths))
      ensures r.Failed? && r.failure.Absent? ==> Now() == old(Now()) && r.failure == Absent(from, needed)
      ensures ProceedsFor(w, old(Now()), Now(), reach, needed, w.candidates(needed, origin, runpaths), r)
    {
      ghost var before := Now();
      var name := w.base(needed);
      provider := Module(name);
      if name in w.provided {
        GrowsByNothing(w, Now());
        return Ok, provider;
      }
      if '/' !in needed && name in sonames {
        GrowsByNothing(w, Now());
        assert OwnerIsPlanned(w, before, name);
        return Ok, Planned(sonames[name].target, sonames[name].package);
      }
      var found := FindLocal(w, needed, origin, runpaths);
      if found.Broken? {
        return Failed(found.failure), provider;
      }
      if found.Found? {
        r := AddFound(needed, w.candidates(needed, origin, runpaths), found.path, reach);
        return r, Planned(w.inSource(found.path).value, None);
      }
      if needed !in w.libraries {
        return Failed(Absent(from, needed)), provider;
      }
      r := CopyLibrary(w.libraries[needed], reach);
      if r.Ok? {
        PackedIsSourced(w, before, Now());
      }
      return r, Planned(w.libraries[needed].target, Some(w.libraries[needed].package));
    }

    /** Plans the file of the source that provides a name. */
    method AddFound(needed: string, ghost paths: seq<string>, path: string, ghost reach: Reach) returns (r: Outcome)
      requires Sound(w, Now()) && Settled(w) && copying == {} && w.base(needed) !in w.provided
      requires exists k :: FirstEligible(w, paths, k) && path == w.resolved(paths[k])
      modifies this
      ensures r.Ok? ==> CopiedTo(w, old(Now()), Now()) && w.inSource(path).value in entries && copying == {}
      ensures r.Ok? ==> Sourced(w, old(Now()), Now())
      ensures r.Failed? ==> OfFiles(r.failure)
      ensures ProceedsFor(w, old(Now()), Now(), reach, needed, paths, r)
    {
      ghost var before := Now();
      ghost var k :| FirstEligible(w, paths, k) && path == w.resolved(paths[k]);
      r := Add(path, w.inSource(path).value, None, false);
      FoundProceeds(w, before, Now(), reach, needed, paths, k, r);
      if r.Ok? {
        FoundAdded(w, before, Now(), path, w.resolved(path));
        FoundIsSourced(w, before, Now(), path);
      }
    }

    /** Resolves a name for a caller that is not a queued file. */
    method Request(needed: string, origin: string, from: string, runpaths: seq<string>) returns (r: Outcome)
      requires Sound(w, Now()) && Settled(w) && copying == {} && Answered(queued, edges, seen)
      modifies this
      ensures r.Ok? ==>
              Sound(w, Now()) && copying == {} && Answered(queued, edges, seen) && HasEdge(edges, from, needed)
      ensures r.Ok? ==> asked == old(asked) + {Question(from, needed)} && Sourced(w, old(Now()), Now())
    {
      asked := asked + {Question(from, needed)};
      AskKeeps(w, old(Now()), Question(from, needed));
      ghost var before := Now();
      r := Resolve(needed, origin, from, runpaths, Reach({}, {}, (q: Item) => true));
      if r.Ok? {
        AnsweredOn(w, before, Now(), seen);
        assert edges[|before.edges|] in edges;
      }
    }

    /** Resolves everything one item needs. */
    method Answer(item: Item, ghost reach: Reach) returns (r: Outcome)
      requires Taken(w, Now(), item) && Settled(w) && copying == {}
      modifies this
      ensures r.Ok? ==> Concluded(w, old(Now()), Now(), item) && copying == {}
      ensures r.Ok? ==> FoundUpTo(w, Now(), item, |Needs(item.info)|) && Sourced(w, old(Now()), Now())
      ensures Needs(item.info) == [] ==> r.Ok?
      ensures r.Failed? && r.failure.Absent? ==> Stuck(w, Now(), r.failure.from, r.failure.needed)
      ensures reach.good(item) ==> Proceeds(w, old(Now()), Now(), reach, r)
    {
      var needs, k := Needs(item.info), 0;
      GrowsByNothing(w, Now());
      while k < |needs|
        invariant 0 <= k <= |needs| && copying == {} && (k == 0 ==> Now() == old(Now()))
        invariant AnsweredTo(w, old(Now()), Now()) && AnsweredUpTo(w, Now(), item, k) && FoundUpTo(w, Now(), item, k)
        invariant reach.good(item) ==> Proceeds(w, old(Now()), Now(), reach, Ok)
        invariant Sourced(w, old(Now()), Now())
      {
        ghost var before := Now();
        StillDue(before, item, k);
        r := Resolve(needs[k], item.origin, Label(item), RunpathsFor(item, k), reach);
        ProceedsOn(w, old(Now()), before, Now(), reach, item, k, r);
        if r.Failed? {
          StuckHere(w, before, item, k);
          return;
        }
        AnsweredOne(w, old(Now()), before, Now(), item, k, PathsOf(w, item, k));
        FoundMore(w, before, Now(), item, k);
        SourcedOn(w, old(Now()), before, Now());
        k := k + 1;
      }
      AllAnswered(w, Now(), item);
      return Ok;
    }

    /** Looks at every queued item, and at those that are queued by doing so. It fails for want of a provider
        only on a name that nothing provides; when everything in reach is prepared, it fails in no other way,
        and so succeeds if and only if no name is left without a provider. */
    method CloseDependencies(ghost reach: Reach) returns (r: Outcome)
      requires Sound(w, Now()) && Settled(w) && copying == {} && Answered(queued, edges, seen)
      modifies this
      ensures r.Ok? ==> Closing(w, old(Now()), Now()) && pending == [] && copying == {}
      ensures r.Ok? ==> Sourced(w, old(Now()), Now())
      ensures Idle(old(queued)) ==> r.Ok?
      ensures r.Failed? && r.failure.Absent? ==> Stuck(w, Now(), r.failure.from, r.failure.needed)
      ensures Prepared(w, old(Now()), reach) && AllFound(w, old(Now())) ==>
                (r.Ok? <==> forall from, needed :: !Stuck(w, Now(), from, needed))
    {
      while pending != []
        invariant Closing(w, old(Now()), Now()) && copying == {}
        invariant Proceeds(w, old(Now()), Now(), reach, Ok) && Sourced(w, old(Now()), Now())
        decreases Unplanned(w, Now()), |pending|
      {
        ghost var before := Now();
        r := TakeOne(old(Now()), reach);
        ProceedsThen(w, old(Now()), before, Now(), reach, r);
        if r.Failed? {
          return;
        }
        SourcedOn(w, old(Now()), before, Now());
      }
      AllProvided(w, old(Now()), Now());
      return Ok;
    }

    /** Looks at the next item, unless one with its label has been. */
    method TakeOne(ghost start: Plan, ghost reach: Reach) returns (r: Outcome)
      requires Closing(w, start, Now()) && copying == {} && pending != [] && Settled(w)
      modifies this
      ensures r.Ok? ==> Closing(w, start, Now()) && copying == {}
      ensures r.Ok? ==> Progress(w, old(Now()), Now()) && Sourced(w, old(Now()), Now())
      ensures Idle(start.queued) ==> r.Ok?
      ensures r.Failed? && r.failure.Absent? ==> Stuck(w, Now(), r.failure.from, r.failure.needed)
      ensures Proceeds(w, old(Now()), Now(), reach, r)
    {
      ghost var before := Now();
      TakeItem(w, start, before);
      PreparedSame(w, before, Pop(before), reach);
      var item, known := PopItem();
      if known {
        return Ok;
      }
      NextIsGood(w, before, reach);
      r := Answer(item, reach);
      if r.Ok? {
        ItemAnswered(w, start, before, Now());
      }
    }

    method PopItem() returns (item: Item, known: bool)
      requires pending != []
      modifies this
      ensures Now() == Pop(old(Now())) && copying == old(copying)
      ensures item == old(pending)[0] && known == (Label(item) in old(seen))
      ensures item.member.None? ==> seen == old(seen) + {item.origin}
      ensures item.member.Some? ==> seen == old(seen) + {item.origin + "!" + item.member.value}
    {
      item := pending[0];
      pending := pending[1..];
      known := Label(item) in seen;
      if !known {
        seen := seen + {Label(item)};
      }
    }

    /** Copies the package a library name is locked to. */
    method CopyLibrary(library: Library, ghost reach: Reach) returns (r: Outcome)
      requires Sound(w, Now()) && Settled(w) && copying == {}
      modifies this
      ensures r.Ok? ==> CopiedTo(w, old(Now()), Now()) && library.target in entries && copying == {}
      ensures r.Ok? ==> Packed(w, old(Now()), Now())
      ensures r.Failed? ==> !r.failure.Absent?
      ensures LibraryFine(w, reach, library) ==> Proceeds(w, old(Now()), Now(), reach, r)
    {
      var name := library.package;
      if name !in w.lock || w.lock[name].files.None?
         || !exists f :: f in w.lock[name].files.value && f.target == library.target {
        return Failed(NotLoaded(name));
      }
      assert Chain(w, [] + [name]);
      r := CopyPackage(name, [], reach);
      if r.Ok? {
        assert Copied(w, Now(), name);
        var f :| f in w.lock[name].files.value && f.target == library.target;
        assert Holds(w, Now(), f.target, w.resolved(f.origin));
      }
    }
  }

  /** The first candidate that is a file inside the source; it has to be a readable ELF file. */
  method FindLocal(w: World, needed: string, origin: string, runpaths: seq<string>) returns (r: Search)
    ensures r.Nowhere? <==>
            ValidName(needed) && forall k :: !FirstEligible(w, w.candidates(needed, origin, runpaths), k)
    ensures r.Broken? && ValidName(needed) ==>
              exists k :: FirstEligible(w, w.candidates(needed, origin, runpaths), k)
                          && !ReadableElf(w, w.resolved(w.candidates(needed, origin, runpaths)[k]))
    ensures r.Found? ==> exists k :: FirstEligible(w, w.candidates(needed, origin, runpaths), k)
                                     && r.path == w.resolved(w.candidates(needed, origin, runpaths)[k])
                                     && ReadableElf(w, r.path) && ValidName(needed)
    ensures r.Broken? ==> OfFiles(r.failure)
    ensures r.Broken? && r.failure.BadName? <==> needed == "" || '\\' in needed || '\0' in needed
  {
    if !ValidName(needed) {
      return Broken(BadName(needed));
    }
    var paths := w.candidates(needed, origin, runpaths);
    var k := 0;
    while k < |paths|
      invariant 0 <= k <= |paths| && forall j | 0 <= j < k :: !Eligible(w, paths[j])
    {
      var file := w.resolved(paths[k]);
      if file in w.files && w.inSource(file).Some? {
        assert FirstEligible(w, paths, k);
        if !Elf(w.files[file]) {
          return Broken(NotElf(paths[k]));
        }
        if w.elf(w.files[file]).None? {
          return Broken(BadElf(file));
        }
        return Found(file);
      }
      k := k + 1;
    }
    return Nowhere;
  }

  function Zeros(n: nat): (s: seq<byte>)
    ensures |s| == n
  {
    seq(n, i => 0)
  }

  /** The head of a 64-bit x86-64 shared object, and one more byte. */
  function Image(last: byte): (content: seq<byte>)
    ensures |content| == 65 && Loadable(content) && content[64] == last
  {
    var content := MAGIC + [2, 1, 1] + Zeros(9) + [3, 0, 0x3e, 0] + Zeros(44) + [last];
    assert content[..7] == MAGIC + [2, 1, 1] && content[16] == 3;
    assert content[16..20][0] == 3;
    content
  }

  /** A JAR with two members of one name: the first needs nothing, the second needs a library. */
  function TwoMembersOfOneName(): World {
    var plain, needy := Image(0), Image(1);
    var members := [Member("l.so", true, 65, plain), Member("l.so", true, 65, needy)];
    World(
      files := map["a.jar" := [0x50, 0x4b]], resolved := (path: string) => path, allowed := (path: string) => true,
      inSource := (path: string) => None, relative := (target: string) => Some(target), base := (name: string) => name,
      isJar := (path: string) => true,
      elf := (content: seq<byte>) =>
        if content == plain then Some(Info([], "", [], ""))
        else if content == needy then Some(Info(["libz.so"], "", [], "")) else None,
      jar := (content: seq<byte>) => Some(members),
      linux := (name: string, content: seq<byte>) => content == plain || content == needy,
      candidates := (name: string, origin: string, runpaths: seq<string>) => [], provided := {},
      lock := map[], libraries := map[])
  }

  function TwoItems(): (q: seq<Item>)
    ensures |q| == 2 && Label(q[0]) == Label(q[1])
  {
    [Item("a.jar", Some("l.so"), Info([], "", [], "")), Item("a.jar", Some("l.so"), Info(["libz.so"], "", [], ""))]
  }

  lemma BothAreQueued()
    ensures var w := TwoMembersOfOneName();
            Natives(w, "a.jar", w.jar([]).value) == TwoItems() && AllMembersFit(w, w.jar([]).value) && RejectsObjects(w)
  {
    var w := TwoMembersOfOneName();
    var members := w.jar([]).value;
    assert Image(0)[64] != Image(1)[64];
    NextMember(w, "a.jar", members, 0);
    NextMember(w, "a.jar", members, 1);
    assert members[..0] == [] && members[..2] == members;
  }

  lemma FirstNeedsNothing()
    ensures Idle(TwoItems())
  {
    var q := TwoItems();
    forall l, n ensures !NeededFirst(q, l, n) {
      if l == Label(q[0]) {
        FirstExists(q, 0);
      }
    }
  }

  lemma SecondIsNotSatisfied(s: Plan)
    requires s.queued == TwoItems() && s.edges == []
    ensures exists q :: q in s.queued && !Satisfied(s, q)
  {
    var q := TwoItems()[1];
    assert q in s.queued && "libz.so" in Needs(q.info);
    assert !HasEdge(s.edges, Label(q), "libz.so");
  }

  /** Members are told apart by archive and name alone, so the second is not looked at: the plan is closed
      without anything for the library. */
  method SecondMemberIsSkipped() returns (r: Outcome, plan: RootPlan)
    ensures r.Ok? && plan.pending == [] && plan.edges == [] && Sound(plan.w, plan.Now())
    ensures exists q :: q in plan.queued && !Satisfied(plan.Now(), q)
  {
    r, plan := TwoMembers();
    FirstNeedsNothing();
    r := plan.CloseDependencies(Reach({}, {}, (q: Item) => true));
    SecondIsNotSatisfied(plan.Now());
  }

  method TwoMembers() returns (r: Outcome, plan: RootPlan)
    ensures fresh(plan) && r.Ok? && Sound(plan.w, plan.Now()) && Settled(plan.w) && plan.copying == {}
    ensures plan.queued == TwoItems() && plan.edges == [] && plan.seen == {}
  {
    plan := new RootPlan(TwoMembersOfOneName());
    BothAreQueued();
    assert Content(plan.w, "a.jar") == [0x50, 0x4b] && plan.w.jar([0x50, 0x4b]) == plan.w.jar([]);
    r := plan.Add("a.jar", "a.jar", None, true);
  }
}
