/** What a guest root is planned from: the files of the host, the parsers, and the locked packages.

    Path arithmetic, symbolic links, ELF and ZIP parsing and the package cache are given functions. */
module Installation {
  import opened Frames
  import opened Spans

  /** ELF metadata; an absent SONAME or interpreter is "". */
  datatype Info = Info(needed: seq<string>, soname: string, runpaths: seq<string>, interpreter: string)

  /** A JAR member; `library` is false for directories and names without ".so". */
  datatype Member = Member(name: string, library: bool, size: int, content: seq<byte>)

  /** A file that a locked package installs. */
  datatype Payload = Payload(target: string, origin: string)

  /** A locked package; `files` is None when its archive cannot be loaded. */
  datatype Package = Package(dependencies: seq<string>, files: Option<seq<Payload>>)

  /** Which package, and which file of it, a library name is locked to. */
  datatype Library = Library(package: string, target: string)

  datatype World = World(
    files: map<string, seq<byte>>,                             // regular files by resolved path
    resolved: string -> string,                                // a path with its links resolved
    allowed: string -> bool,                                   // inside the source or the cache
    inSource: string -> Option<string>,                        // relative to the source, when inside it
    relative: string -> Option<string>,                        // a target, normalised, when it is valid
    base: string -> string,                                    // the last component of a name
    isJar: string -> bool,                                     // by its suffix
    elf: seq<byte> -> Option<Info>,                            // None when it is refused
    jar: seq<byte> -> Option<seq<Member>>,                     // None when it is no archive
    linux: (string, seq<byte>) -> bool,                        // a member for this machine
    candidates: (string, string, seq<string>) -> seq<string>,  // where a name is looked for
    provided: set<string>,
    lock: map<string, Package>,
    libraries: map<string, Library>)

  /** Normalising a target that is a locked install path, or the path of a resolved source file, does not
      change it. */
  ghost predicate Settled(w: World) {
    && (forall p | p in w.lock && w.lock[p].files.Some? :: forall f | f in w.lock[p].files.value :: Normal(w, f.target))
    && forall o | o in w.files && w.inSource(o).Some? :: Normal(w, w.inSource(o).value)
  }

  ghost predicate Normal(w: World, target: string) {
    w.relative(target).Some? ==> w.relative(target).value == target
  }

  function Content(w: World, origin: string): seq<byte> {
    if origin in w.files then w.files[origin] else []
  }

  // ----- ELF files -----

  const MAGIC: seq<byte> := [0x7f, 0x45, 0x4c, 0x46]

  predicate Elf(content: seq<byte>) { MAGIC <= content }

  /** A relocatable x86-64 object, such as a compiler's startup object: it has no dependencies. */
  predicate Relocatable(content: seq<byte>) {
    && |content| >= 64 && content[..7] == MAGIC + [2, 1, 1]
    && content[16..20] == [1, 0, 0x3e, 0]
  }

  predicate Loadable(content: seq<byte>) { Elf(content) && !Relocatable(content) }

  /** The parser accepts executables and shared objects, never a relocatable object. */
  ghost predicate RejectsObjects(w: World) {
    forall content :: w.elf(content).Some? ==> Loadable(content)
  }

  /** Everything a file must find: what it needs, and its interpreter. */
  function Needs(info: Info): seq<string> {
    info.needed + if info.interpreter != "" then [info.interpreter] else []
  }

  /** A file is loadable when it is ELF, and not a 64-bit little-endian relocatable object for x86-64. */
  lemma LoadableBytes(c: seq<byte>)
    ensures Loadable(c) <==>
            && |c| >= 4 && c[0] == 0x7f && c[1] == 'E' as int && c[2] == 'L' as int && c[3] == 'F' as int
            && !(|c| >= 64 && c[4] == 2 && c[5] == 1 && c[6] == 1
                 && c[16] == 1 && c[17] == 0 && c[18] == 62 && c[19] == 0)
  {
    if |c| >= 4 {
      assert MAGIC <= c <==> c[..4] == MAGIC;
      assert c[..4] == [c[0], c[1], c[2], c[3]];
    }
    if |c| >= 64 {
      assert c[..7] == [c[0], c[1], c[2], c[3], c[4], c[5], c[6]];
      assert c[16..20] == [c[16], c[17], c[18], c[19]];
    }
  }

  /** A name is needed when it is listed, or is the interpreter. */
  lemma NeedsAre(info: Info, n: string)
    ensures n in Needs(info) <==> n in info.needed || (n == info.interpreter && n != "")
  {
  }

  // ----- the targets that can be planned while dependencies are closed -----

  ghost function PackageTargets(w: World): set<string> {
    set p, f | p in w.lock && w.lock[p].files.Some? && f in w.lock[p].files.value :: f.target
  }

  ghost function SourceTargets(w: World): set<string> {
    set o | o in w.files && w.inSource(o).Some? :: w.inSource(o).value
  }

  ghost function Universe(w: World): set<string> { PackageTargets(w) + SourceTargets(w) }

  // ----- package requirements -----

  ghost predicate Requires(w: World, a: string, b: string) {
    a in w.lock && b in w.lock[a].dependencies
  }

  ghost predicate Chain(w: World, p: seq<string>) {
    p != [] && forall j | 0 < j < |p| :: Requires(w, p[j - 1], p[j])
  }

  ghost predicate LoopAt(w: World, p: seq<string>, root: string, name: string) {
    Chain(w, p) && p[0] == root && p[|p| - 1] == name && name in p[..|p| - 1]
  }

  /** Following requirements from root reaches a package that requires itself in the end. */
  ghost predicate CycleFrom(w: World, root: string) {
    exists p, name :: LoopAt(w, p, root, name)
  }

  /** Every package comes after the packages it requires, which are all there. */
  ghost predicate Layered(w: World, copied: seq<string>) {
    forall i | 0 <= i < |copied| ::
      copied[i] in w.lock && forall d | d in w.lock[copied[i]].dependencies :: d in copied[..i]
  }

  lemma {:induction false} ChainStaysBelow(w: World, copied: seq<string>, p: seq<string>, i: int, j: int)
    requires Layered(w, copied) && Chain(w, p) && 0 <= i < |copied| && p[0] == copied[i] && 0 <= j < |p|
    ensures p[j] in copied[..i + 1] && (j > 0 ==> p[j] in copied[..i])
    decreases j
  {
    if j > 0 {
      ChainStaysBelow(w, copied, p, i, j - 1);
      var k :| 0 <= k <= i && copied[k] == p[j - 1];
      assert Requires(w, p[j - 1], p[j]);
      assert p[j] in copied[..k];
      var m :| 0 <= m < k && copied[m] == p[j];
      assert copied[..i][m] == p[j] && copied[..i + 1][m] == p[j];
    } else {
      assert copied[..i + 1][i] == p[0];
    }
  }

  /** In a layered list without repetition, nothing requires itself in the end. */
  lemma LayeredHasNoCycle(w: World, copied: seq<string>, root: string)
    requires Layered(w, copied) && root in copied
    requires forall i, j | 0 <= i < j < |copied| :: copied[i] != copied[j]
    ensures !CycleFrom(w, root)
  {
    forall p, name | LoopAt(w, p, root, name) ensures false {
      var i :| 0 <= i < |p| - 1 && p[i] == name;
      var k :| 0 <= k < |copied| && copied[k] == root;
      ChainStaysBelow(w, copied, p, k, i);
      var m :| 0 <= m <= k && copied[m] == name;
      var rest := p[i..];
      assert Chain(w, rest) by {
        forall j | 0 < j < |rest| ensures Requires(w, rest[j - 1], rest[j]) {
          assert Requires(w, p[i + j - 1], p[i + j]);
        }
      }
      ChainStaysBelow(w, copied, rest, m, |rest| - 1);
    }
  }

  /** A requirement of a package that is being copied, for a package that is being copied, closes a cycle. */
  lemma BackEdgeIsCycle(w: World, chain: seq<string>, name: string)
    requires Chain(w, chain + [name]) && name in chain
    ensures CycleFrom(w, chain[0])
  {
    assert (chain + [name])[..|chain + [name]| - 1] == chain;
    assert LoopAt(w, chain + [name], chain[0], name);
  }
}
