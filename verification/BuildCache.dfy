/**
 The receipt-guarded build of a local package. Digests are taken to be collision free and
 stand for what they digest. `Build` is the package's own build: a function of the
 sources, the tools and the installed modules.
 */
module BuildCache {
  import opened Wrappers

  type Tree = map<string, string>

  /** `node_modules`: missing, half installed, or installed from these dependencies. */
  datatype Modules = Absent | Partial | From(deps: string)

  datatype Receipt = Receipt(sources: Tree, deps: string, tools: string, output: Tree)

  datatype World = World(sources: Tree, tools: string, modules: Modules, dist: Tree, receipt: Option<Receipt>)

  type Build = (Tree, string, Modules) -> Option<Tree>

  // ---------------------------------------------------------------- one prepare

  /** The lock file if there is one, else the package manifest. */
  function Deps(sources: Tree): Option<string> {
    if "package-lock.json" in sources then Some(sources["package-lock.json"])
    else if "package.json" in sources then Some(sources["package.json"])
    else None
  }

  predicate Current(w: World, deps: string) {
    w.receipt.Some? && w.receipt.value == Receipt(w.sources, deps, w.tools, w.dist)
  }

  predicate WillInstall(w: World, deps: string) {
    w.receipt.None? || w.receipt.value.deps != deps || w.modules.Absent?
  }

  /** The modules the build will see. */
  function ModulesFor(w: World, deps: string): Modules { if WillInstall(w, deps) then From(deps) else w.modules }

  function Prepare(build: Build, w: World, check: bool): (World, bool) {
    var deps := Deps(w.sources);
    if deps.None? then (w, false)
    else if Current(w, deps.value) then (w, true)
    else if check then (w, false)
    else
      var installed := w.(modules := ModulesFor(w, deps.value));
      match build(w.sources, w.tools, installed.modules)
      case None => (installed, false)
      case Some(out) =>
        (installed.(dist := out, receipt := Some(Receipt(w.sources, deps.value, w.tools, out))), true)
  }

  /** The package directory and its receipt, changed step by step. */
  class LocalPackage {
    var sources: Tree
    var tools: string
    var modules: Modules
    var dist: Tree
    var receipt: Option<Receipt>

    constructor (w: World)
      ensures Here() == w
    {
      sources, tools, modules, dist, receipt := w.sources, w.tools, w.modules, w.dist, w.receipt;
    }

    function Here(): World
      reads this
    {
      World(sources, tools, modules, dist, receipt)
    }

    /** Removes what the build no longer has, then writes what differs; ends with exactly the build. */
    method PublishDist(staged: Tree)
      modifies this`dist
      ensures dist == staged
    {
      var existing := dist.Keys;
      while existing != {}
        invariant forall p <- dist :: p in staged || p in existing
        decreases existing
      {
        var p :| p in existing;
        existing := existing - {p};
        if p !in staged { dist := dist - {p}; }
      }
      var files := staged.Keys;
      while files != {}
        invariant files <= staged.Keys && forall p <- dist :: p in staged
        invariant forall p <- staged :: p in files || (p in dist && dist[p] == staged[p])
        decreases files
      {
        var p :| p in files;
        files := files - {p};
        if p in dist && dist[p] == staged[p] { continue; }
        dist := dist[p := staged[p]];
      }
      assert dist.Keys == staged.Keys;
    }

    method PrepareLocalPackage(build: Build, check: bool) returns (ok: bool)
      modifies this
      ensures (Here(), ok) == Prepare(build, old(Here()), check)
    {
      var deps := Deps(sources);
      if deps.None? { return false; }
      if receipt.Some? && receipt.value.sources == sources && receipt.value.deps == deps.value
         && receipt.value.tools == tools && receipt.value.output == dist { return true; }
      if check { return false; }
      var dependenciesChanged := receipt.None? || receipt.value.deps != deps.value;
      if dependenciesChanged || modules.Absent? { modules := From(deps.value); }
      var staged := build(sources, tools, modules);
      if staged.None? { return false; }
      PublishDist(staged.value);
      receipt := Some(Receipt(sources, deps.value, tools, dist));
      return true;
    }
  }

  // ---------------------------------------------------------------- runs

  /**
   What can happen between and during calls. A crash while installing leaves the modules
   half installed; a crash while publishing may leave anything in `dist`.
   */
  datatype Event =
    | EditSources(sources: Tree)
    | EditTools(tools: string)
    | EditDist(dist: Tree)
    | RemoveModules
    | Prepared(check: bool)
    | CrashInstalling
    | CrashPublishing(left: Tree)

  function After(build: Build, w: World, e: Event): World {
    match e
    case EditSources(sources) => w.(sources := sources)
    case EditTools(tools) => w.(tools := tools)
    case EditDist(dist) => w.(dist := dist)
    case RemoveModules => w.(modules := Absent)
    case Prepared(check) => Prepare(build, w, check).0
    case CrashInstalling =>
      var deps := Deps(w.sources);
      if deps.Some? && !Current(w, deps.value) && WillInstall(w, deps.value) then w.(modules := Partial) else w
    case CrashPublishing(left) =>
      var deps := Deps(w.sources);
      if deps.Some? && !Current(w, deps.value)
      then w.(modules := ModulesFor(w, deps.value), dist := left)
      else w
  }

  function Run(build: Build, w: World, events: seq<Event>): World
    decreases |events|
  {
    if events == [] then w else Run(build, After(build, w, events[0]), events[1..])
  }

  /** The receipt, if there is one, records the build of the inputs it records. */
  ghost predicate Truthful(build: Build, w: World) {
    w.receipt.Some? ==>
      var r := w.receipt.value;
      build(r.sources, r.tools, From(r.deps)) == Some(r.output)
  }

  /** A prepare that would build finds, or will install, the modules its dependencies ask for. */
  predicate Ready(w: World) {
    var deps := Deps(w.sources);
    deps.Some? && !Current(w, deps.value) ==> WillInstall(w, deps.value) || w.modules == From(deps.value)
  }

  predicate ReadyThroughout(build: Build, w: World, events: seq<Event>)
    decreases |events|
  {
    events == [] || (
      && (events[0] == Prepared(false) ==> Ready(w))
      && ReadyThroughout(build, After(build, w, events[0]), events[1..]))
  }

  lemma StepKeepsTruth(build: Build, w: World, e: Event)
    requires Truthful(build, w) && (e == Prepared(false) ==> Ready(w))
    ensures Truthful(build, After(build, w, e))
  {
  }

  /**
   Whatever edits, crashes and completed prepares a run is made of, the receipt stays true while
   every build is ready.
   */
  lemma {:induction false} RunKeepsTruth(build: Build, w: World, events: seq<Event>)
    requires Truthful(build, w) && ReadyThroughout(build, w, events)
    ensures Truthful(build, Run(build, w, events))
    decreases |events|
  {
    if events != [] {
      StepKeepsTruth(build, w, events[0]);
      RunKeepsTruth(build, After(build, w, events[0]), events[1..]);
    }
  }

  /** So whenever the cached path is taken, `dist` is what a fresh build would make, half published or not. */
  lemma CachedIsFresh(build: Build, w: World, events: seq<Event>, check: bool)
    requires Truthful(build, w) && ReadyThroughout(build, w, events)
    ensures var v := Run(build, w, events);
            Deps(v.sources).Some? && Current(v, Deps(v.sources).value) ==>
              && Prepare(build, v, check) == (v, true)
              && build(v.sources, v.tools, From(Deps(v.sources).value)) == Some(v.dist)
  {
    RunKeepsTruth(build, w, events);
  }

  /** A prepare that succeeds on a ready world leaves the sources alone and `dist` as a fresh build, by either path. */
  lemma PrepareDelivers(build: Build, w: World, check: bool)
    requires Truthful(build, w) && Ready(w) && Prepare(build, w, check).1
    ensures var v := Prepare(build, w, check).0;
            && v.sources == w.sources && v.tools == w.tools
            && Deps(v.sources).Some? && Current(v, Deps(v.sources).value)
            && build(v.sources, v.tools, From(Deps(v.sources).value)) == Some(v.dist)
  {
  }

  /** The modules a prepare of this package builds against: fresh ones unless the receipt's can be kept. */
  function BuiltAgainst(w: World, deps: string): Modules {
    match w.receipt
    case Some(r) => if r.deps == deps && w.modules != Absent then w.modules else From(deps)
    case None => From(deps)
  }

  /**
   The lock file names the dependencies, or the package manifest where there is none. A prepare
   succeeds exactly when there are dependencies, and either the receipt records the package as
   it stands, or it may build and the build succeeds. It then leaves what it was given or what
   it built, with the receipt of it, and otherwise leaves the output alone.
   */
  lemma PrepareExact(build: Build, w: World, check: bool)
    ensures "package-lock.json" in w.sources ==> Deps(w.sources) == Some(w.sources["package-lock.json"])
    ensures "package-lock.json" !in w.sources && "package.json" in w.sources ==>
              Deps(w.sources) == Some(w.sources["package.json"])
    ensures "package-lock.json" !in w.sources && "package.json" !in w.sources ==> Deps(w.sources).None?
    ensures var (v, ok) := Prepare(build, w, check);
            && v.sources == w.sources && v.tools == w.tools
            && match Deps(w.sources)
               case None => !ok && v == w
               case Some(deps) =>
                 var built := build(w.sources, w.tools, BuiltAgainst(w, deps));
                 if w.receipt == Some(Receipt(w.sources, deps, w.tools, w.dist)) then ok && v == w
                 else if check then !ok && v == w
                 else if built.None? then !ok && v == w.(modules := BuiltAgainst(w, deps))
                 else ok && v == World(w.sources, w.tools, BuiltAgainst(w, deps), built.value,
                                       Some(Receipt(w.sources, deps, w.tools, built.value)))
  {
  }

  /** So a package that was never built is built by its first prepare, and checks from then on. */
  lemma FirstPrepareBuilds(build: Build, w: World, deps: string, out: Tree)
    requires w.receipt.None? && Deps(w.sources) == Some(deps) && build(w.sources, w.tools, From(deps)) == Some(out)
    ensures var v := World(w.sources, w.tools, From(deps), out, Some(Receipt(w.sources, deps, w.tools, out)));
            Prepare(build, w, false) == (v, true) && Prepare(build, v, true) == (v, true) && !Prepare(build, w, true).1
  {
    PrepareExact(build, w, false);
    PrepareExact(build, w, true);
  }

  /**
   The condition is exact: in every world where a build is not ready, there is a build
   function for which the receipt was true and the prepare makes it false.
   */
  lemma UnreadyCanLie(w: World) returns (build: Build)
    requires w.receipt.Some? && !Ready(w)
    ensures Truthful(build, w) && Prepare(build, w, false).1 && !Truthful(build, Prepare(build, w, false).0)
  {
    var before := w.receipt.value.output;
    var other: Tree := if before == map[] then map["index.js" := ""] else map[];
    assert other != before by {
      assert before == map[] ==> "index.js" in other && "index.js" !in before;
    }
    build := (s, t, m) => if s == w.sources && t == w.tools && m == w.modules then Some(other) else Some(before);
  }

  // ---------------------------------------------------------------- which runs stay ready

  /** The modules, if there are any, were installed from the dependencies on the receipt. */
  predicate Matched(w: World) {
    w.receipt.Some? ==> w.modules.Absent? || w.modules == From(w.receipt.value.deps)
  }

  /**
   Over an old receipt, the event begins an install and does not get as far as a new receipt:
   a crash, or a build that fails. It is told from the world and the event.
   */
  predicate CutsShort(build: Build, w: World, e: Event) {
    var deps := Deps(w.sources);
    && w.receipt.Some? && deps.Some? && WillInstall(w, deps.value)
    && match e
       case CrashInstalling => !Current(w, deps.value)
       case CrashPublishing(_) => deps.value != w.receipt.value.deps
       case Prepared(check) =>
         !check && deps.value != w.receipt.value.deps && build(w.sources, w.tools, From(deps.value)).None?
       case _ => false
  }

  predicate CutShort(build: Build, w: World, events: seq<Event>)
    decreases |events|
  {
    events != [] && (CutsShort(build, w, events[0]) || CutShort(build, After(build, w, events[0]), events[1..]))
  }

  /** Matched modules are what every prepare needs, and only an event that cuts a prepare short loses them. */
  lemma MatchedExact(build: Build, w: World, e: Event)
    requires Matched(w)
    ensures Ready(w)
    ensures Matched(After(build, w, e)) <==> !CutsShort(build, w, e)
  {
  }

  /** A run in which no prepare is cut short over an old receipt is ready throughout, whatever is edited. */
  lemma {:induction false} WholeRunIsReady(build: Build, w: World, events: seq<Event>)
    requires Matched(w) && !CutShort(build, w, events)
    ensures ReadyThroughout(build, w, events) && Matched(Run(build, w, events))
    decreases |events|
  {
    if events != [] {
      MatchedExact(build, w, events[0]);
      WholeRunIsReady(build, After(build, w, events[0]), events[1..]);
    }
  }

  /** In particular every run without crashes whose builds do not fail. */
  lemma {:induction false} CalmRunIsWhole(build: Build, w: World, events: seq<Event>)
    requires forall e <- events :: !e.CrashInstalling? && !e.CrashPublishing?
    requires forall s, t, m :: build(s, t, m).Some?
    ensures !CutShort(build, w, events)
    decreases |events|
  {
    if events != [] {
      assert events[0] in events && forall e <- events[1..] :: e in events;
      CalmRunIsWhole(build, After(build, w, events[0]), events[1..]);
    }
  }

  /** So from a package that was never built, such a run keeps the receipt true. */
  lemma WholeRunIsTrue(build: Build, w: World, events: seq<Event>)
    requires Truthful(build, w) && Matched(w) && !CutShort(build, w, events)
    ensures Truthful(build, Run(build, w, events)) && Ready(Run(build, w, events))
  {
    WholeRunIsReady(build, w, events);
    RunKeepsTruth(build, w, events);
    MatchedExact(build, Run(build, w, events), Prepared(true));
  }

  /**
   How a run gets to an unready world: the lock changes, a prepare installs and is cut off or
   its build fails, the lock is put back while a source is edited. The next prepare builds
   against the wrong modules.
   */
  lemma RevertedLockIsUnready(build: Build, w: World, a: Tree, b: Tree, e: Event)
    requires w.receipt.Some? && Deps(w.sources) == Some(w.receipt.value.deps) && w.modules == From(w.receipt.value.deps)
    requires Deps(a).Some? && Deps(a) != Deps(w.sources) && Deps(b) == Deps(w.sources) && b != w.receipt.value.sources
    requires e.CrashInstalling? || e.CrashPublishing?
          || (e == Prepared(false) && build(a, w.tools, From(Deps(a).value)).None?)
    ensures ReadyThroughout(build, w, [EditSources(a), e, EditSources(b)])
    ensures !Ready(Run(build, w, [EditSources(a), e, EditSources(b)]))
  {
    var x, z := EditSources(a), EditSources(b);
    assert [x, e, z][1..] == [e, z] && [e, z][1..] == [z] && [z][1..] == [];
    var u := After(build, w, x);
    var v := After(build, u, e);
    assert Run(build, w, [x, e, z]) == Run(build, u, [e, z]) == Run(build, v, [z])
      == Run(build, After(build, v, z), []);
    assert ReadyThroughout(build, v, [z]) && ReadyThroughout(build, u, [e, z]);
  }

  // ---------------------------------------------------------------- what the file digest reads

  datatype File = File(path: string, contents: string)

  const NUL := '\0'

  /** The bytes hashed for a list of files: path, NUL, contents, NUL. */
  function HashInput(files: seq<File>): string {
    if files == [] then []
    else files[0].path + ([NUL] + (files[0].contents + ([NUL] + HashInput(files[1..]))))
  }

  function Nuls(s: string): nat { multiset(s)[NUL] }

  /** No file holds a NUL, but for at most one in the contents of the last. */
  predicate NulFree(files: seq<File>) {
    forall i | 0 <= i < |files| ::
      NUL !in files[i].path && Nuls(files[i].contents) <= if i == |files| - 1 then 1 else 0
  }

  lemma {:induction false} NulEnds(a: string, b: string, x: string, y: string)
    requires NUL !in a && NUL !in b && a + ([NUL] + x) == b + ([NUL] + y)
    ensures a == b && x == y
  {
    var s, t := a + ([NUL] + x), b + ([NUL] + y);
    assert s[0] == (if a == [] then NUL else a[0]) && t[0] == (if b == [] then NUL else b[0]);
    if a == [] {
      assert s[1..] == x && t[1..] == y;
    } else {
      assert s[1..] == a[1..] + ([NUL] + x) && t[1..] == b[1..] + ([NUL] + y);
      NulEnds(a[1..], b[1..], x, y);
      assert a == [a[0]] + a[1..] && b == [b[0]] + b[1..];
    }
  }

  /** A list of at least two files brings three NULs after the contents of the first. */
  lemma FramesHoldNuls(contents: string, rest: seq<File>)
    requires rest != []
    ensures Nuls(contents + ([NUL] + HashInput(rest))) >= 3
  {
    assert HashInput(rest) == rest[0].path + ([NUL] + (rest[0].contents + ([NUL] + HashInput(rest[1..]))));
  }

  lemma LastContents(a: string, b: string)
    requires a + ([NUL] + HashInput([])) == b + ([NUL] + HashInput([]))
    ensures a == b
  {
    assert a + ([NUL] + HashInput([])) == a + [NUL] && b + ([NUL] + HashInput([])) == b + [NUL];
    assert (a + [NUL])[..|a|] == a && (b + [NUL])[..|b|] == b;
  }

  lemma NulFreeTail(files: seq<File>)
    requires NulFree(files) && |files| > 1
    ensures NUL !in files[0].contents && NulFree(files[1..])
  {
    assert NUL !in multiset(files[0].contents);
    forall i | 0 <= i < |files[1..]|
      ensures NUL !in files[1..][i].path
      ensures Nuls(files[1..][i].contents) <= if i == |files[1..]| - 1 then 1 else 0
    {
      assert files[1..][i] == files[i + 1];
    }
  }

  /** On lists without NUL bytes, but for one in the last file, the hashed bytes determine the files. */
  lemma {:induction false} HashInputDistinct(fs: seq<File>, gs: seq<File>)
    requires NulFree(fs) && NulFree(gs) && HashInput(fs) == HashInput(gs)
    ensures fs == gs
  {
    if fs != [] && gs != [] {
      var x, y := fs[0].contents + ([NUL] + HashInput(fs[1..])), gs[0].contents + ([NUL] + HashInput(gs[1..]));
      NulEnds(fs[0].path, gs[0].path, x, y);
      if fs[1..] == [] && gs[1..] == [] {
        LastContents(fs[0].contents, gs[0].contents);
      } else if fs[1..] == [] {
        FramesHoldNuls(gs[0].contents, gs[1..]);
      } else if gs[1..] == [] {
        FramesHoldNuls(fs[0].contents, fs[1..]);
      } else {
        NulFreeTail(fs);
        NulFreeTail(gs);
        NulEnds(fs[0].contents, gs[0].contents, HashInput(fs[1..]), HashInput(gs[1..]));
        HashInputDistinct(fs[1..], gs[1..]);
      }
      assert fs == [fs[0]] + fs[1..] && gs == [gs[0]] + gs[1..];
    }
  }

  /** A list of files as it is hashed: paths without NUL, sorted, each once. */
  ghost predicate Listed(before: (string, string) -> bool, fs: seq<File>) {
    && (forall f <- fs :: NUL !in f.path)
    && forall i, j | 0 <= i < j < |fs| :: before(fs[i].path, fs[j].path)
  }

  /** No other list that could be hashed has the same bytes. */
  ghost predicate Determined(before: (string, string) -> bool, fs: seq<File>) {
    forall gs: seq<File> | Listed(before, gs) && HashInput(gs) == HashInput(fs) :: gs == fs
  }

  ghost predicate SplitsAt(contents: string, c: string, p: string, d: string) {
    contents == c + ([NUL] + (p + ([NUL] + d)))
  }

  /** The contents hold, between two NULs, what could be the path of a later file. */
  ghost predicate Resplits(before: (string, string) -> bool, f: File) {
    exists c, p, d :: SplitsAt(f.contents, c, p, d) && NUL !in p && before(f.path, p)
  }

  function Joined(a: File, b: File): File {
    File(a.path, a.contents + ([NUL] + (b.path + ([NUL] + b.contents))))
  }

  /** A NUL inside a file can pass for the frame: any two files hash like one. */
  lemma NulCollides(a: File, b: File, rest: seq<File>)
    ensures HashInput([a, b] + rest) == HashInput([Joined(a, b)] + rest)
  {
    var bs, js, r := [b] + rest, [Joined(a, b)] + rest, HashInput(rest);
    assert ([a, b] + rest)[1..] == bs && bs[1..] == rest && js[1..] == rest;
    assert HashInput(bs) == b.path + ([NUL] + (b.contents + ([NUL] + r)));
    assert a.contents + ([NUL] + HashInput(bs)) == Joined(a, b).contents + ([NUL] + r);
  }

  lemma JoinedListed(before: (string, string) -> bool, fs: seq<File>)
    requires Listed(before, fs) && |fs| >= 2
    ensures Listed(before, [Joined(fs[0], fs[1])] + fs[2..])
  {
    var gs := [Joined(fs[0], fs[1])] + fs[2..];
    forall f <- gs ensures NUL !in f.path { assert f.path == fs[0].path || f in fs[2..]; }
    forall i, j | 0 <= i < j < |gs| ensures before(gs[i].path, gs[j].path) {
      assert gs[j] == fs[j + 1] && gs[i].path == fs[if i == 0 then 0 else i + 1].path;
    }
  }

  lemma SplitCollides(before: (string, string) -> bool, f: File)
    requires NUL !in f.path && Resplits(before, f)
    ensures !Determined(before, [f])
  {
    var c, p, d :| SplitsAt(f.contents, c, p, d) && NUL !in p && before(f.path, p);
    var g, h := File(f.path, c), File(p, d);
    NulCollides(g, h, []);
    assert [g, h] + [] == [g, h] && [Joined(g, h)] + [] == [f];
    assert Listed(before, [g, h]) && [g, h] != [f];
  }

  /** A non-empty list's bytes are a path, a NUL, and something that ends in a NUL. */
  lemma {:induction false} EndsInNul(fs: seq<File>) returns (d: string)
    requires fs != []
    ensures HashInput(fs) == fs[0].path + ([NUL] + (d + [NUL]))
  {
    var f, rest := fs[0], fs[1..];
    if rest == [] {
      d := f.contents;
      assert [NUL] + HashInput(rest) == [NUL];
    } else {
      var e := EndsInNul(rest);
      d := f.contents + ([NUL] + (rest[0].path + ([NUL] + e)));
      assert f.contents + ([NUL] + HashInput(rest)) == d + [NUL];
    }
  }

  lemma Regroup(c: string, p: string, d: string)
    ensures c + ([NUL] + (p + ([NUL] + (d + [NUL])))) == (c + ([NUL] + (p + ([NUL] + d)))) + ([NUL] + [])
  {
  }

  lemma SameBytesSplit(before: (string, string) -> bool, f: File, gs: seq<File>)
    requires NUL !in f.path && Listed(before, gs) && HashInput(gs) == HashInput([f])
    ensures gs == [f] || Resplits(before, f)
  {
    assert [f][1..] == [] && HashInput([f]) == f.path + ([NUL] + (f.contents + ([NUL] + [])));
    var g, rest := gs[0], gs[1..];
    assert g in gs && gs == [g] + rest;
    NulEnds(f.path, g.path, f.contents + ([NUL] + []), g.contents + ([NUL] + HashInput(rest)));
    if rest == [] {
      LastContents(f.contents, g.contents);
    } else {
      var d := EndsInNul(rest);
      var p := rest[0].path;
      assert gs[1] in gs && gs[1] == rest[0] && before(f.path, p);
      Regroup(g.contents, p, d);
      LastContents(f.contents, g.contents + ([NUL] + (p + ([NUL] + d))));
      assert SplitsAt(f.contents, g.contents, p, d);
    }
  }

  /**
   The hashed bytes determine the list exactly when it is empty, or is one file whose
   contents hold no later path between two NULs. Two files always hash like one.
   */
  lemma HashInputExact(before: (string, string) -> bool, fs: seq<File>)
    requires Listed(before, fs)
    ensures Determined(before, fs) <==> fs == [] || (|fs| == 1 && !Resplits(before, fs[0]))
  {
    if |fs| >= 2 {
      NulCollides(fs[0], fs[1], fs[2..]);
      JoinedListed(before, fs);
      assert fs == [fs[0], fs[1]] + fs[2..];
      assert |[Joined(fs[0], fs[1])] + fs[2..]| < |fs|;
    } else if |fs| == 1 {
      assert fs == [fs[0]] && fs[0] in fs;
      if Resplits(before, fs[0]) {
        SplitCollides(before, fs[0]);
      } else {
        forall gs: seq<File> | Listed(before, gs) && HashInput(gs) == HashInput(fs) ensures gs == fs {
          SameBytesSplit(before, fs[0], gs);
        }
      }
    }
  }
}
