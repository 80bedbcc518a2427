/**
 Runs that pass validation and do not keep the promise: those that fail half-way and what
 running them again does, and those that leave a manifest over incomplete files.
 */
module ClientFailures {
  import opened Wrappers
  import opened Collections
  import opened Paths
  import opened ClientTree
  import opened ClientSync
  import opened ClientCheck
  import opened ClientStops
  import opened ClientRecovery
  import opened ClientRefusals

  // ---------------------------------------------------------------- running a failed project again

  /** One call of the generator: refused without a change, or run. */
  function Call(read: ManifestReader, t: Tree, files: seq<GeneratedFile>): Ran {
    match Plan(read, t, files)
    case None => Ran(t, false)
    case Some(stale) => Run(t, Script(stale, files))
  }

  /** Calling it on what it left until it completes, at most `n` times. */
  function Until(call: Tree -> Ran, t: Tree, n: nat): Ran
    decreases n
  {
    if n == 0 then Ran(t, false) else
    var first := call(t);
    if first.ok then first else Until(call, first.tree, n - 1)
  }

  function Calls(read: ManifestReader, t: Tree, files: seq<GeneratedFile>, n: nat): Ran {
    Until(u => Call(read, u, files), t, n)
  }

  /** A call on a good tree ends in these files and directories, or leaves a good tree with fewer files. */
  ghost predicate Progresses(
    call: Tree -> Ran, good: Tree -> bool, done: map<Path, Contents>, made: set<Path>, t: Tree)
  {
    var r := call(t);
    if r.ok then r.tree == Tree(done, t.dirs + made)
    else good(r.tree) && |r.tree.files| < |t.files| && r.tree.dirs + made == t.dirs + made
  }

  lemma {:induction false} UntilCompletes(
    call: Tree -> Ran, good: Tree -> bool, done: map<Path, Contents>, made: set<Path>, t: Tree, n: nat)
    requires good(t) && n > |t.files| && forall u | good(u) :: Progresses(call, good, done, made, u)
    ensures Until(call, t, n) == Ran(Tree(done, t.dirs + made), true)
    decreases n
  {
    assert Progresses(call, good, done, made, t);
    if !call(t).ok { UntilCompletes(call, good, done, made, call(t).tree, n - 1); }
  }

  lemma {:induction false} UntilNeverCompletes(call: Tree -> Ran, good: Tree -> bool, t: Tree, n: nat)
    requires good(t) && forall u | good(u) :: !call(u).ok && good(call(u).tree)
    ensures !Until(call, t, n).ok
    decreases n
  {
    if n > 0 { UntilNeverCompletes(call, good, call(t).tree, n - 1); }
  }

  /** Some of the files of a tree, in the same directories and the root. */
  ghost predicate Fewer(t: Tree, less: Tree) {
    && less.dirs == t.dirs + {[]}
    && less.files.Keys <= t.files.Keys
    && forall p <- less.files.Keys :: less.files[p] == t.files[p]
  }

  lemma {:induction false} FirstIsDeleted(t: Tree, places: seq<Path>)
    requires places != [] && places[0] in t.files
    ensures places[0] !in Run(t, Removes(places)).tree.files
  {
    RemovesOnlyDelete(Apply(t, Remove(places[0])).value, places[1..]);
    assert Removes(places)[1..] == Removes(places[1..]);
  }

  /** Deletions that name one place twice stop among themselves, and not at the first. */
  lemma {:induction false} DeletionsFail(t: Tree, places: seq<Path>, writes: seq<Step>)
    requires [] !in t.files && Set(places) <= t.files.Keys && !Distinct(places)
    ensures var less := Run(t, [MakeDir([])] + (Removes(places) + writes)).tree;
            && Fewer(t, less) && places[0] in t.files && places[0] !in less.files
            && t.files.Keys - Set(places) <= less.files.Keys
  {
    var rooted := Tree(t.files, t.dirs + {[]});
    RootedRun(t, Removes(places) + writes);
    RunConcat(rooted, Removes(places), writes);
    RemovesOutcome(rooted, places);
    RemovesOnlyDelete(rooted, places);
    assert places[0] in Set(places);
    FirstIsDeleted(rooted, places);
  }

  /** A project that can be written fails only among its deletions. */
  lemma {:induction false} FailsDeleting(read: ManifestReader, t: Tree, files: seq<GeneratedFile>, stale: seq<string>)
    requires WellFormed(t) && Plan(read, t, files) == Some(stale) && Writable(files)
    requires !Run(t, Script(stale, files)).ok
    ensures var less := Run(t, Script(stale, files)).tree;
            && Fewer(t, less) && stale != [] && Names(stale[0]) in t.files && Names(stale[0]) !in less.files
            && t.files.Keys - Set(PlacesOf(stale)) <= less.files.Keys
  {
    RunCompletes(read, t, files);
    PlannedKeys(read, t, files);
    DeletionsFail(t, PlacesOf(stale), Writes(WriteOrder(files)));
    ScriptShape(stale, files);
  }

  lemma {:induction false} ScriptShape(stale: seq<string>, files: seq<GeneratedFile>)
    ensures Script(stale, files) == [MakeDir([])] + (Removes(PlacesOf(stale)) + Writes(WriteOrder(files)))
  {
  }

  lemma {:induction false} RootedRun(t: Tree, rest: seq<Step>)
    requires [] !in t.files
    ensures Run(t, [MakeDir([])] + rest) == Run(Tree(t.files, t.dirs + {[]}), rest)
  {
    assert [] in t.dirs ==> t.dirs + {[]} == t.dirs;
    assert ([MakeDir([])] + rest)[1..] == rest;
  }

  lemma {:induction false} FewerUnblocked(t: Tree, less: Tree, version: nat, c: seq<string>)
    requires Fewer(t, less) && Unblocked(t, version, c) && forall x <- c :: Names(x) != []
    ensures Unblocked(less, version, c)
  {
    forall x <- c ensures Inspect(less, version, x) != Blocked {
      assert Inspect(t, version, x) != Blocked;
    }
  }

  lemma {:induction false} DeclaredPlaces(read: ManifestReader, t: Tree, files: seq<GeneratedFile>)
    requires DeclaredBy(read, t, files).Some?
    ensures forall x <- DeclaredBy(read, t, files).value.1 :: Names(x) != []
  {
    if [MANIFEST] in t.files { DeclaredMeaning(read, t.files[[MANIFEST]].text, files); }
  }

  lemma {:induction false} FewerIsPlanned(read: ManifestReader, t: Tree, files: seq<GeneratedFile>, less: Tree)
    requires Plan(read, t, files).Some? && Fewer(t, less) && SameAt(t, less, [MANIFEST]) && TargetsOk(less, files)
    ensures Plan(read, less, files).Some?
  {
    var d := DeclaredBy(read, t, files);
    StaleIsOwned(read, t, files);
    StaleIsOwned(read, less, files);
    var (version, c) := d.value;
    SameDeclared(read, t, files, less);
    OwnedAccepted(t, version, c);
    OwnedAccepted(less, version, c);
    DeclaredPlaces(read, t, files);
    FewerUnblocked(t, less, version, c);
    OwnedCovers(t, files, version, c, Owned(t, version, c).value);
    FewerCount(t, less);
    OwnedCovers(less, files, version, c, Owned(less, version, c).value);
  }

  lemma {:induction false} FewerCount(t: Tree, less: Tree)
    requires Fewer(t, less)
    ensures |less.files| <= |t.files|
    ensures less.files.Keys != t.files.Keys ==> |less.files| < |t.files|
  {
    Subset(less.files.Keys, t.files.Keys);
    assert |less.files| == |less.files.Keys| && |t.files| == |t.files.Keys|;
    if |less.files| == |t.files| { SubsetFills(less.files.Keys, t.files.Keys); }
  }

  /**
   A project that can be written fails after validation only by deleting one place twice. It
   has then lost a stale file and nothing else, and validation passes again.
   */
  lemma {:induction false} FailedCallIsPlanned(read: ManifestReader, t: Tree, files: seq<GeneratedFile>)
    requires WellFormed(t) && Plan(read, t, files).Some? && Writable(files) && !Call(read, t, files).ok
    ensures var less := Call(read, t, files).tree;
            && WellFormed(less) && Fewer(t, less) && |less.files| < |t.files|
            && Plan(read, less, files).Some?
  {
    var stale := Plan(read, t, files).value;
    var less := Call(read, t, files).tree;
    FailsDeleting(read, t, files, stale);
    FewerCount(t, less);
    FailedStops(read, t, files, stale);
    FewerIsPlanned(read, t, files, less);
  }

  lemma {:induction false} FailedStops(read: ManifestReader, t: Tree, files: seq<GeneratedFile>, stale: seq<string>)
    requires WellFormed(t) && Plan(read, t, files) == Some(stale) && Writable(files)
    requires !Run(t, Script(stale, files)).ok
    ensures var less := Run(t, Script(stale, files)).tree;
            WellFormed(less) && SameAt(t, less, [MANIFEST]) && TargetsOk(less, files)
  {
    var script := Script(stale, files);
    StoppedBetween(read, t, files, |script|);
    assert script[..|script|] == script;
    TargetsAgain(t, files, Set(PlacesOf(stale)), Run(t, script).tree);
  }

  lemma {:induction false} CallOutcome(read: ManifestReader, t: Tree, files: seq<GeneratedFile>)
    requires WellFormed(t) && Plan(read, t, files).Some? && Writable(files)
    ensures var r := Call(read, t, files);
            if r.ok then r.tree == Tree(Final(files), t.dirs + Dirs(files))
            else r.tree.dirs + Dirs(files) == t.dirs + Dirs(files)
  {
    RunConverges(read, t, files);
    RootInDirs(files);
    if !Call(read, t, files).ok { FailsDeleting(read, t, files, Plan(read, t, files).value); }
  }

  /** So calling again completes, after at most one failure for each file, and ends as a run that never failed. */
  lemma {:induction false} CallsComplete(read: ManifestReader, t: Tree, files: seq<GeneratedFile>, n: nat)
    requires WellFormed(t) && Plan(read, t, files).Some? && Writable(files) && n > |t.files|
    ensures Calls(read, t, files, n) == Ran(Tree(Final(files), t.dirs + Dirs(files)), true)
  {
    var call, good := (u: Tree) => Call(read, u, files), (u: Tree) => WellFormed(u) && Plan(read, u, files).Some?;
    forall u | good(u) ensures Progresses(call, good, Final(files), Dirs(files), u) {
      CallOutcome(read, u, files);
      if !Call(read, u, files).ok { FailedCallIsPlanned(read, u, files); }
    }
    UntilCompletes(call, good, Final(files), Dirs(files), t, n);
  }

  lemma {:induction false} CallKeepsWellFormed(read: ManifestReader, t: Tree, files: seq<GeneratedFile>)
    requires WellFormed(t)
    ensures WellFormed(Call(read, t, files).tree)
  {
    if Plan(read, t, files).Some? {
      var script := Script(Plan(read, t, files).value, files);
      StoppedBetween(read, t, files, |script|);
      assert script[..|script|] == script;
    }
  }

  lemma {:induction false} CallsNeverComplete(read: ManifestReader, t: Tree, files: seq<GeneratedFile>, n: nat)
    requires WellFormed(t) && !Writable(files)
    ensures !Calls(read, t, files, n).ok
  {
    var call, good := (u: Tree) => Call(read, u, files), (u: Tree) => WellFormed(u);
    forall u | good(u) ensures !call(u).ok && good(call(u).tree) {
      if Plan(read, u, files).Some? { RunCompletes(read, u, files); }
      CallKeepsWellFormed(read, u, files);
    }
    UntilNeverCompletes(call, good, t, n);
  }

  /** A validated project is finished by calling often enough exactly when its paths can be written. */
  lemma {:induction false} CallsExact(read: ManifestReader, t: Tree, files: seq<GeneratedFile>)
    requires WellFormed(t) && Plan(read, t, files).Some?
    ensures Calls(read, t, files, |t.files| + 1).ok <==> Writable(files)
    ensures (exists n: nat :: Calls(read, t, files, n).ok) <==> Writable(files)
  {
    if Writable(files) {
      CallsComplete(read, t, files, |t.files| + 1);
    } else {
      forall n: nat ensures !Calls(read, t, files, n).ok { CallsNeverComplete(read, t, files, n); }
    }
  }

  // ---------------------------------------------------------------- inputs that fail after validation

  /** For any two names, a project with a file `a` and a file `a/b` passes validation and fails to be written. */
  lemma {:induction false} NestedPathsFail(
    read: ManifestReader, a: string, b: string, t: Tree, files: seq<GeneratedFile>)
    requires ValidName(a) && ValidName(b) && t == Tree(map[], {})
    requires |files| == 2 && files[0].path == a && files[1].path == Join([a, b])
    ensures WellFormed(t) && Plan(read, t, files) == Some([]) && !Run(t, Script([], files)).ok
  {
    NestedPaths(a, b, files);
    EmptyPlan(read, t, files);
    RunCompletes(read, t, files);
  }

  lemma {:induction false} NestedPaths(a: string, b: string, files: seq<GeneratedFile>)
    requires ValidName(a) && ValidName(b) && |files| == 2 && files[0].path == a && files[1].path == Join([a, b])
    ensures ValidFiles(files) && !Writable(files)
  {
    PlainName(a);
    JoinNames([a, b]);
    assert [a, b][..1] == [a];
    assert files[0] in files && files[1] in files && !Apart(files[0], files[1]);
  }

  /** A tree of one file in the root and one in a directory. */
  ghost predicate TwoFiles(t: Tree, root: string, dir: string, name: string) {
    && ValidName(root) && ValidName(dir) && ValidName(name) && root != dir
    && t.dirs == {[], [dir]} && t.files.Keys == {[root], [dir, name]}
  }

  lemma {:induction false} TwoFilesTree(t: Tree, root: string, dir: string, name: string)
    requires TwoFiles(t, root, dir, name)
    ensures WellFormed(t) && |t.files| == 2
  {
    assert |t.files| == |t.files.Keys|;
    assert Parent([root]) == [] && Parent([dir]) == [] && Parent([dir, name]) == [dir];
  }

  lemma {:induction false} TwoFilesFit(t: Tree, root: string, dir: string, name: string, files: seq<GeneratedFile>)
    requires TwoFiles(t, root, dir, name)
    requires forall f <- files :: Names(f.path) == [root] || Names(f.path) == [dir, name]
    ensures TargetsOk(t, files)
  {
    TwoFilesTree(t, root, dir, name);
    forall f | f in files ensures FitsAt(t, f) {
      forall q <- StrictPrefixes(Names(f.path), 0) ensures q !in t.files {
        assert |q| == 1 ==> q[0] == dir;
      }
    }
    FitsTargets(t, files);
  }

  lemma {:induction false} AllOwned(t: Tree, version: nat, c: seq<string>)
    requires forall x <- c :: Inspect(t, version, x) == Deletable
    ensures Owned(t, version, c) == Some(c)
    decreases c
  {
    if c != [] {
      assert c == [c[0]] + c[1..];
      AllOwned(t, version, c[1..]);
    }
  }

  ghost predicate Marked(c: Contents) {
    c.Text? && Utf8Length(c.text) <= MAX_ARTIFACT_BYTES && StartsWith(c.text, MARKER)
  }

  lemma {:induction false} ModuleIsDeletable(t: Tree, root: string, dir: string, name: string, x: string)
    requires TwoFiles(t, root, dir, name) && Marked(t.files[[dir, name]]) && Names(x) == [dir, name] && !DirSpelling(x)
    ensures Inspect(t, 2, x) == Deletable
  {
    forall i | 0 <= i < 2 ensures Names(x)[..i] !in t.files { assert i == 1 ==> Names(x)[..i] == [dir]; }
  }

  /** Over two files, a project in their places can be written when the modules that name the one are deleted. */
  ghost predicate Admits(t: Tree, files: seq<GeneratedFile>, c: seq<string>) {
    && WellFormed(t) && ValidFiles(files) && Writable(files) && TargetsOk(t, files)
    && Owned(t, 2, c) == Some(c) && Converges(t, files, c)
  }

  lemma {:induction false} AdmitsPlan(read: ManifestReader, t: Tree, files: seq<GeneratedFile>, c: seq<string>)
    requires Admits(t, files, c) && DeclaredBy(read, t, files) == Some((2, c))
    ensures Plan(read, t, files) == Some(c)
  {
    StaleIsOwned(read, t, files);
  }

  ghost predicate AllNames(paths: seq<string>, p: Path) { forall x <- paths :: Names(x) == p && !DirSpelling(x) }

  lemma {:induction false} TwoFilesAdmit(
    root: string, dir: string, name: string, t: Tree, files: seq<GeneratedFile>, c: seq<string>)
    requires TwoFiles(t, root, dir, name) && Marked(t.files[[dir, name]]) && ValidFiles(files) && Expects(files, root)
    requires forall f <- files :: !DirSpelling(f.path) && (Names(f.path) == [root] || Names(f.path) == [dir, name])
    requires c != [] && AllNames(c, [dir, name])
    ensures Admits(t, files, c)
  {
    TwoFilesTree(t, root, dir, name);
    TwoFilesFit(t, root, dir, name, files);
    TwoPlacesWritable(files, [root], [dir, name]);
    AllDeletable(t, root, dir, name, c);
    TwoConverge(root, dir, name, t, files, c);
  }

  lemma {:induction false} AllDeletable(t: Tree, root: string, dir: string, name: string, c: seq<string>)
    requires TwoFiles(t, root, dir, name) && Marked(t.files[[dir, name]]) && AllNames(c, [dir, name])
    ensures Owned(t, 2, c) == Some(c)
  {
    forall x <- c ensures Inspect(t, 2, x) == Deletable { ModuleIsDeletable(t, root, dir, name, x); }
    AllOwned(t, 2, c);
  }

  lemma {:induction false} TwoConverge(
    root: string, dir: string, name: string, t: Tree, files: seq<GeneratedFile>, c: seq<string>)
    requires TwoFiles(t, root, dir, name) && Expects(files, root) && c != [] && Names(c[0]) == [dir, name]
    ensures Converges(t, files, c)
  {
    TwoFilesTree(t, root, dir, name);
    assert Join([root]) == root;
  }

  lemma {:induction false} TwoDeclared(
    read: ManifestReader, source: string, x: string, y: string, files: seq<GeneratedFile>)
    returns (c: seq<string>)
    requires read(source) == Provenance(Some(2), Some([Some(x), Some(y)])) && Utf8Length(source) <= MAX_MANIFEST_BYTES
    requires ValidModulePath(x) && ValidModulePath(y) && !Expects(files, x) && !Expects(files, y)
    ensures Declared(read, source, files) == Some((2, c)) && x in c && y in c && forall z <- c :: z == x || z == y
  {
    var operations := [Some(x), Some(y)];
    CandidatesAccepted(operations, files);
    c := Candidates(operations, files).value;
    CandidatesExact(operations, files, x);
    CandidatesExact(operations, files, y);
    forall z <- c ensures z == x || z == y { CandidatesExact(operations, files, z); }
  }

  lemma {:induction false} TwinsFail(
    read: ManifestReader, t: Tree, files: seq<GeneratedFile>, stale: seq<string>, x: string, y: string)
    requires WellFormed(t) && Plan(read, t, files) == Some(stale)
    requires x in stale && y in stale && x != y && Names(x) == Names(y)
    ensures !Run(t, Script(stale, files)).ok
  {
    RunCompletes(read, t, files);
    TwinPlaces(stale, x, y);
  }

  lemma {:induction false} TwinPlaces(stale: seq<string>, x: string, y: string)
    requires x in stale && y in stale && x != y && Names(x) == Names(y)
    ensures !Distinct(PlacesOf(stale))
  {
    var places := PlacesOf(stale);
    var i :| 0 <= i < |stale| && stale[i] == x;
    var j :| 0 <= j < |stale| && stale[j] == y;
    assert places[i] == places[j];
  }

  /** A module path spelled with one slash and with two. */
  lemma {:induction false} DoubledModule(dir: string, name: string, x: string, y: string)
    requires dir == "operations" && ValidName(name) && HasTsExtension(name)
    requires x == Join([dir, name]) && y == dir + "/" + ("/" + name)
    ensures ValidModulePath(x) && ValidModulePath(y) && x != y && !DirSpelling(x) && !DirSpelling(y)
    ensures Names(x) == Names(y) == [dir, name]
  {
    ModulePath(name);
    JoinNames([dir, name]);
    DoubledSlash(dir, name, y);
  }

  lemma {:induction false} OnlyRootLeft(t: Tree, root: string, dir: string, name: string, c: seq<string>, less: Tree)
    requires TwoFiles(t, root, dir, name) && Fewer(t, less) && [dir, name] !in less.files
    requires t.files.Keys - Set(PlacesOf(c)) <= less.files.Keys && AllNames(c, [dir, name])
    ensures less == Tree(t.files - {[dir, name]}, t.dirs)
  {
    assert [root] in t.files.Keys - Set(PlacesOf(c));
    assert less.dirs == t.dirs;
    assert less.files == t.files - {[dir, name]};
  }

  lemma {:induction false} PlannedTwinsFail(
    read: ManifestReader, root: string, dir: string, name: string, t: Tree, files: seq<GeneratedFile>,
    c: seq<string>, x: string, y: string)
    requires TwoFiles(t, root, dir, name) && WellFormed(t) && Plan(read, t, files) == Some(c) && Writable(files)
    requires x in c && y in c && x != y && AllNames(c, [dir, name])
    ensures Run(t, Script(c, files)) == Ran(Tree(t.files - {[dir, name]}, t.dirs), false)
  {
    assert Names(x) == Names(y);
    TwinsFail(read, t, files, c, x, y);
    FailsDeleting(read, t, files, c);
    OnlyRootLeft(t, root, dir, name, c, Run(t, Script(c, files)).tree);
  }

  lemma {:induction false} OneFileAdmits(
    root: string, dir: string, name: string, t: Tree, files: seq<GeneratedFile>, c: seq<string>)
    requires TwoFiles(t, root, dir, name) && Marked(t.files[[dir, name]]) && |files| == 1 && files[0].path == root
    requires c != [] && AllNames(c, [dir, name])
    ensures Admits(t, files, c)
  {
    PlainName(root);
    SingleName(files);
    assert Expects(files, root) && forall f <- files :: f == files[0];
    TwoFilesAdmit(root, dir, name, t, files, c);
  }

  /**
   The old manifest names one marked file twice, with one slash and with two: the new run passes
   validation, deletes the file, and fails to delete it again.
   */
  lemma {:induction false} TwinModulesFail(
    read: ManifestReader, source: string, dir: string, name: string, x: string, y: string, t: Tree,
    files: seq<GeneratedFile>)
    returns (stale: seq<string>)
    requires dir == "operations" && ValidName(name) && HasTsExtension(name)
    requires x == Join([dir, name]) && y == dir + "/" + ("/" + name)
    requires |files| == 1 && files[0].path == MANIFEST
    requires read(source) == Provenance(Some(2), Some([Some(x), Some(y)])) && Utf8Length(source) <= MAX_MANIFEST_BYTES
    requires TwoFiles(t, MANIFEST, dir, name) && t.files[[MANIFEST]] == Text(source) && Marked(t.files[[dir, name]])
    ensures WellFormed(t) && Plan(read, t, files) == Some(stale)
    ensures Run(t, Script(stale, files)) == Ran(Tree(t.files - {[dir, name]}, t.dirs), false)
  {
    DoubledModule(dir, name, x, y);
    ManifestIsName();
    OtherPlace(files[0].path, x);
    OtherPlace(files[0].path, y);
    stale := TwoDeclared(read, source, x, y, files);
    DeclaredOn(read, source, t, files);
    OneFileAdmits(files[0].path, dir, name, t, files, stale);
    AdmitsPlan(read, t, files, stale);
    PlannedTwinsFail(read, files[0].path, dir, name, t, files, stale, x, y);
  }

  lemma {:induction false} DeclaredOn(read: ManifestReader, source: string, t: Tree, files: seq<GeneratedFile>)
    requires [MANIFEST] !in t.dirs && [MANIFEST] in t.files && t.files[[MANIFEST]] == Text(source)
    ensures DeclaredBy(read, t, files) == Declared(read, source, files)
  {
  }

  // ---------------------------------------------------------------- a manifest over incomplete files

  /** Some stop of the run stands under the new manifest without all the new files. */
  ghost predicate Misleads(t: Tree, files: seq<GeneratedFile>, stale: seq<string>, manifest: GeneratedFile) {
    exists k: nat :: k <= |Script(stale, files)| && !Honest(StoppedAt(t, Script(stale, files), k), files, manifest)
  }

  lemma {:induction false} MisleadsExact(
    read: ManifestReader, t: Tree, files: seq<GeneratedFile>, stale: seq<string>, manifest: GeneratedFile)
    requires Completes(read, t, files, stale) && manifest in files && manifest.path == MANIFEST
    ensures Misleads(t, files, stale, manifest) <==> !OneText(files) || !HonestStart(t, files, stale, manifest)
  {
    ManifestMeansComplete(read, t, files, manifest);
  }

  lemma {:induction false} PlacesApart(p: Path, q: Path)
    requires p != [] && q != [] && (p == q || p[0] != q[0])
    ensures p !in StrictPrefixes(q, 0)
  {
  }

  lemma {:induction false} TwoPlacesWritable(files: seq<GeneratedFile>, p: Path, q: Path)
    requires p != [] && q != [] && p[0] != q[0]
    requires forall f <- files :: !DirSpelling(f.path) && (Names(f.path) == p || Names(f.path) == q)
    ensures Writable(files)
  {
    PlacesApart(p, p);
    PlacesApart(p, q);
    PlacesApart(q, p);
    PlacesApart(q, q);
  }

  lemma {:induction false} ThreePaths(root: string, a: string, b: string, files: seq<GeneratedFile>)
    requires ValidName(root) && ValidName(a) && ValidName(b) && a != root
    requires |files| == 3 && files[0].path == root
    requires files[1].path == Join([a, b]) && files[2].path == a + "/" + ("/" + b)
    ensures ValidFiles(files)
    ensures forall f <- files :: !DirSpelling(f.path) && (Names(f.path) == [root] || Names(f.path) == [a, b])
    ensures Names(files[1].path) == Names(files[2].path)
  {
    PlainName(root);
    JoinNames([a, b]);
    DoubledSlash(a, b, files[2].path);
    OtherPlace(root, files[1].path);
    OtherPlace(root, files[2].path);
    ThreeValid(files);
    assert forall f <- files :: f == files[0] || f == files[1] || f == files[2];
  }

  lemma {:induction false} ThreeValid(files: seq<GeneratedFile>)
    requires |files| == 3
    requires files[0].path != files[1].path && files[0].path != files[2].path && files[1].path != files[2].path
    requires AllNormal(Components(files[0].path)) && AllNormal(Components(files[1].path))
    requires AllNormal(Components(files[2].path))
    ensures ValidFiles(files)
  {
  }

  lemma {:induction false} TwoSpellings(root: string, a: string, b: string, files: seq<GeneratedFile>)
    requires ValidName(root) && ValidName(a) && ValidName(b) && a != root
    requires |files| == 3 && files[0].path == root
    requires files[1].path == Join([a, b]) && files[2].path == a + "/" + ("/" + b)
    ensures ValidFiles(files) && Writable(files) && Names(files[1].path) == Names(files[2].path)
  {
    ThreePaths(root, a, b, files);
    TwoPlacesWritable(files, [root], [a, b]);
  }

  /**
   A project that spells one place with one slash and with two, and gives it two texts, is
   written in full and leaves its manifest over a file that is not as the project has it.
   */
  lemma {:induction false} TwoTextsMislead(
    read: ManifestReader, a: string, b: string, t: Tree, files: seq<GeneratedFile>)
    requires ValidName(a) && ValidName(b) && a != MANIFEST && t == Tree(map[], {})
    requires |files| == 3 && files[0].path == MANIFEST
    requires files[1].path == Join([a, b]) && files[2].path == a + "/" + ("/" + b)
    requires files[1].contents != files[2].contents
    ensures Completes(read, t, files, []) && Misleads(t, files, [], files[0])
  {
    ManifestIsName();
    TwoSpellings(files[0].path, a, b, files);
    FirstRun(read, t, files);
    assert files[0] in files && files[1] in files && files[2] in files;
    MisleadsExact(read, t, files, [], files[0]);
  }

  lemma {:induction false} StopMisleads(
    t: Tree, files: seq<GeneratedFile>, stale: seq<string>, k: nat, manifest: GeneratedFile, f: GeneratedFile)
    requires k <= |Script(stale, files)| && Advertises(StoppedAt(t, Script(stale, files), k), manifest)
    requires f in files && !Shows(StoppedAt(t, Script(stale, files), k).files, f)
    ensures Misleads(t, files, stale, manifest)
  {
    assert !Honest(StoppedAt(t, Script(stale, files), k), files, manifest);
  }

  lemma {:induction false} NameBesideManifest(name: string, files: seq<GeneratedFile>)
    requires ValidName(name) && name != MANIFEST
    requires |files| == 2 && files[0].path == MANIFEST && files[1].path == name
    ensures ManifestAnd(files, files[1]) && Names(files[1].path) == [name]
  {
    PlainName(name);
  }

  /** A start that already has the new manifest, but not the new file, misleads before the first step. */
  lemma {:induction false} ManifestBeforeFileMisleads(
    read: ManifestReader, name: string, t: Tree, files: seq<GeneratedFile>)
    requires ValidName(name) && name != MANIFEST
    requires |files| == 2 && files[0].path == MANIFEST && files[1].path == name
    requires read(files[0].contents) == Provenance(Some(2), Some([]))
    requires Utf8Length(files[0].contents) <= MAX_MANIFEST_BYTES
    requires OneFile(t, MANIFEST) && t.files[[MANIFEST]] == Text(files[0].contents)
    ensures Completes(read, t, files, []) && Misleads(t, files, [], files[0])
  {
    NameBesideManifest(name, files);
    assert DeclaredBy(read, t, files) == Some((2, []));
    OverManifestCompletes(read, [], files[1], t, files);
    assert files[1] in files && !Shows(t.files, files[1]) && StoppedAt(t, Script([], files), 0) == t;
    StopMisleads(t, files, [], 0, files[0], files[1]);
  }

  lemma {:induction false} ManifestAndModule(
    root: string, x: string, y: string, dir: string, name: string, t: Tree, files: seq<GeneratedFile>)
    requires TwoFiles(t, root, dir, name) && Marked(t.files[[dir, name]]) && x == Join([dir, name])
    requires |files| == 2 && files[0].path == root && files[1].path == x && Names(y) == [dir, name] && !DirSpelling(y)
    requires t.files[[root]] == Text(files[0].contents) && t.files[[dir, name]] == Text(files[1].contents)
    ensures Admits(t, files, [y]) && Complete(t, files) && Names(x) == [dir, name]
  {
    RootAndBelow(root, dir, name, files);
    BothShown(t, files);
    TwoFilesAdmit(root, dir, name, t, files, [y]);
  }

  lemma {:induction false} RootAndBelow(root: string, dir: string, name: string, files: seq<GeneratedFile>)
    requires ValidName(root) && ValidName(dir) && ValidName(name) && root != dir
    requires |files| == 2 && files[0].path == root && files[1].path == Join([dir, name])
    ensures ValidFiles(files) && Expects(files, root)
    ensures Names(files[0].path) == [root] && Names(files[1].path) == [dir, name]
    ensures forall f <- files :: !DirSpelling(f.path) && (Names(f.path) == [root] || Names(f.path) == [dir, name])
  {
    PlainName(root);
    JoinNames([dir, name]);
    OtherPlace(root, files[1].path);
    assert forall f <- files :: f == files[0] || f == files[1];
  }

  lemma {:induction false} DeletionMisleads(
    t: Tree, files: seq<GeneratedFile>, stale: seq<string>, manifest: GeneratedFile, f: GeneratedFile)
    requires [] !in t.files && Set(PlacesOf(stale)) <= t.files.Keys && Distinct(PlacesOf(stale))
    requires Advertises(t, manifest) && [MANIFEST] !in PlacesOf(stale)
    requires f in files && Names(f.path) in PlacesOf(stale)
    ensures Misleads(t, files, stale, manifest)
  {
    AfterDeletions(t, stale, files);
    StopMisleads(t, files, stale, 1 + |stale|, manifest, f);
  }

  /**
   A complete start whose manifest, the new one, spells the project's own module with two
   slashes: the run takes the module for a stale one, deletes it, and writes it again.
   */
  lemma {:induction false} OwnModuleDeletedMisleads(
    read: ManifestReader, dir: string, name: string, x: string, y: string, t: Tree, files: seq<GeneratedFile>)
    requires dir == "operations" && ValidName(name) && HasTsExtension(name)
    requires x == Join([dir, name]) && y == dir + "/" + ("/" + name)
    requires |files| == 2 && files[0].path == MANIFEST && files[1].path == x
    requires read(files[0].contents) == Provenance(Some(2), Some([Some(y)]))
    requires Utf8Length(files[0].contents) <= MAX_MANIFEST_BYTES
    requires TwoFiles(t, MANIFEST, dir, name) && t.files[[MANIFEST]] == Text(files[0].contents)
    requires t.files[[dir, name]] == Text(files[1].contents) && Marked(t.files[[dir, name]])
    ensures Complete(t, files) && Completes(read, t, files, [y]) && Misleads(t, files, [y], files[0])
  {
    DoubledModule(dir, name, x, y);
    ManifestIsName();
    OtherPlace(files[0].path, y);
    OneDeclared(read, files[0].contents, y, files);
    DeclaredOn(read, files[0].contents, t, files);
    ManifestAndModule(files[0].path, x, y, dir, name, t, files);
    AdmitsPlan(read, t, files, [y]);
    OneStale(read, t, files, y);
    DeletesProject(read, t, files, y, files[0], files[1]);
  }

  lemma {:induction false} DeletesProject(
    read: ManifestReader, t: Tree, files: seq<GeneratedFile>, y: string, manifest: GeneratedFile, f: GeneratedFile)
    requires WellFormed(t) && Plan(read, t, files) == Some([y]) && Advertises(t, manifest)
    requires f in files && Names(f.path) == Names(y)
    ensures Misleads(t, files, [y], manifest)
  {
    PlannedPlaces(read, t, files);
    PlannedKeys(read, t, files);
    assert PlacesOf([y]) == [Names(y)];
    DeletionMisleads(t, files, [y], manifest, f);
  }

  lemma {:induction false} BothShown(t: Tree, files: seq<GeneratedFile>)
    requires |files| == 2 && Shows(t.files, files[0]) && Shows(t.files, files[1])
    ensures Complete(t, files)
  {
    assert forall f <- files :: f == files[0] || f == files[1];
  }

  lemma {:induction false} OneStale(read: ManifestReader, t: Tree, files: seq<GeneratedFile>, y: string)
    requires WellFormed(t) && Plan(read, t, files) == Some([y]) && Writable(files)
    ensures Completes(read, t, files, [y])
  {
    RunCompletes(read, t, files);
  }
}
