/**
 Runs that complete and yet cannot be stopped anywhere and run again: for each condition of
 recovery, the inputs that break it.
 */
module ClientRefusals {
  import opened Wrappers
  import opened Collections
  import opened Paths
  import opened ClientTree
  import opened ClientSync
  import opened ClientCheck
  import opened ClientStops
  import opened ClientRecovery

  // ---------------------------------------------------------------- a finished run that cannot be repeated

  lemma PlainName(name: string)
    requires ValidName(name)
    ensures Names(name) == [name] && Join([name]) == name && AllNormal(Components(name)) && !DirSpelling(name)
  {
    assert Join([name]) == name;
    JoinNames([name]);
  }

  lemma ManifestIsName()
    ensures ValidName(MANIFEST)
  {
  }

  lemma FirstRun(read: ManifestReader, t: Tree, files: seq<GeneratedFile>)
    requires t == Tree(map[], {}) && ValidFiles(files) && Writable(files)
    ensures Completes(read, t, files, [])
  {
    EmptyPlan(read, t, files);
    RunCompletes(read, t, files);
  }

  ghost predicate Repeats(read: ManifestReader, t0: Tree, files: seq<GeneratedFile>, stale: seq<string>) {
    RecoversAt(read, t0, files, Script(stale, files), |Script(stale, files)|)
  }

  /** Without a manifest, a path whose portable spelling is not expected keeps the run from being repeated. */
  lemma UnexpectedSpelling(
    read: ManifestReader, t0: Tree, files: seq<GeneratedFile>, stale: seq<string>, f: GeneratedFile)
    requires Completes(read, t0, files, stale) && ManifestOf(files).None?
    requires f in files && !Expects(files, Join(Names(f.path)))
    ensures !Repeats(read, t0, files, stale)
  {
    RepeatsExact(read, t0, files, stale);
  }

  /** For any two names, a project whose only path doubles the slash is written and then refused. */
  lemma DoubledSlashRefused(
    read: ManifestReader, a: string, b: string, contents: string, t: Tree, files: seq<GeneratedFile>)
    requires ValidName(a) && ValidName(b) && t == Tree(map[], {})
    requires files == [GeneratedFile(a + "/" + ("/" + b), contents)]
    ensures Completes(read, t, files, []) && !Repeats(read, t, files, [])
  {
    var f := files[0];
    DoubledSlash(a, b, f.path);
    SingleIsWritable(files);
    FirstRun(read, t, files);
    if f.path == MANIFEST { ManifestNames(); }
    assert f in files && forall g <- files :: g == f;
    UnexpectedSpelling(read, t, files, [], f);
  }

  lemma DirectoryForManifest(read: ManifestReader, t: Tree, files: seq<GeneratedFile>)
    requires t == Tree(map[], {}) && ValidFiles(files) && Writable(files) && [MANIFEST] in Dirs(files)
    ensures Completes(read, t, files, []) && !Repeats(read, t, files, [])
  {
    FirstRun(read, t, files);
    RepeatsExact(read, t, files, []);
  }

  lemma SingleBelow(p: Path, q: Path, files: seq<GeneratedFile>)
    requires |files| == 1 && Names(files[0].path) == p && q in StrictPrefixes(p, 0)
    requires AllNormal(Components(files[0].path)) && !DirSpelling(files[0].path)
    ensures ValidFiles(files) && Writable(files) && q in Dirs(files)
  {
    SingleIsWritable(files);
    assert files[0] in files;
  }

  lemma BelowName(parent: string, name: string, files: seq<GeneratedFile>)
    requires ValidName(parent) && ValidName(name) && |files| == 1 && files[0].path == Join([parent, name])
    ensures ValidFiles(files) && Writable(files) && [parent] in Dirs(files)
  {
    var p := [parent, name];
    JoinNames(p);
    assert p[..1] == [parent];
    SingleBelow(p, [parent], files);
  }

  /** A project that puts a file below `manifest.json` is written and then refused. */
  lemma ManifestDirectoryRefused(read: ManifestReader, name: string, t: Tree, files: seq<GeneratedFile>)
    requires ValidName(name) && t == Tree(map[], {})
    requires |files| == 1 && files[0].path == Join([MANIFEST, name])
    ensures Completes(read, t, files, []) && !Repeats(read, t, files, [])
  {
    ManifestIsName();
    BelowName(MANIFEST, name, files);
    DirectoryForManifest(read, t, files);
  }

  lemma NothingDeclared(read: ManifestReader, t: Tree, files: seq<GeneratedFile>)
    requires t == Tree(map[], {}) && ValidFiles(files) && Writable(files) && DeclaredAfter(read, files).None?
    ensures Completes(read, t, files, []) && !Repeats(read, t, files, [])
  {
    FirstRun(read, t, files);
    RepeatsExact(read, t, files, []);
  }

  lemma {:induction false} SingleName(files: seq<GeneratedFile>)
    requires |files| == 1 && ValidName(files[0].path)
    ensures ValidFiles(files) && Writable(files)
  {
    PlainName(files[0].path);
    SingleIsWritable(files);
  }

  /** A project whose manifest does not declare its modules is written and then refused. */
  lemma UnreadableManifestRefused(read: ManifestReader, t: Tree, files: seq<GeneratedFile>)
    requires t == Tree(map[], {}) && |files| == 1 && files[0].path == MANIFEST
    requires Declared(read, files[0].contents, files).None?
    ensures Completes(read, t, files, []) && !Repeats(read, t, files, [])
  {
    ManifestIsName();
    SingleName(files);
    NothingDeclared(read, t, files);
  }

  // ---------------------------------------------------------------- a previous manifest in the way

  /**
   A run cannot be stopped anywhere when a new file lies below a module of the previous
   manifest or above it, stands in its place without the marker, or stands in the place of two.
   */
  lemma PreviousModuleInTheWay(
    read: ManifestReader, t: Tree, files: seq<GeneratedFile>, stale: seq<string>,
    version: nat, c: seq<string>, f: GeneratedFile, x: string, y: string)
    requires Completes(read, t, files, stale) && DeclaredBy(read, t, files) == Some((version, c))
    requires f in files && x in c && y in c
    requires || Names(x) in StrictPrefixes(Names(f.path), 0)
             || Names(f.path) in StrictPrefixes(Names(x), 0)
             || (Names(x) == Names(f.path) && !Owns(version, x, f.contents))
             || (Names(x) == Names(y) == Names(f.path) && x != y)
    ensures !RecoversEverywhere(read, t, files, stale)
  {
    RecoveryExact(read, t, files, stale);
    assert Names(f.path) in Keys(files);
    if Safe(files, Set(files), t.dirs, Some((version, c))) { assert Clear(files, t.dirs, x); }
  }

  /** A tree that holds one file in its root. */
  ghost predicate OneFile(t: Tree, name: string) {
    ValidName(name) && t.dirs == {[]} && t.files.Keys == {[name]}
  }

  lemma OneFileTree(t: Tree, name: string)
    requires OneFile(t, name)
    ensures WellFormed(t) && |t.files| == 1
  {
    assert |t.files| == |t.files.Keys|;
    assert Parent([name]) == [];
  }

  lemma OneFileFits(t: Tree, name: string, files: seq<GeneratedFile>)
    requires OneFile(t, name)
    requires forall f <- files :: Names(f.path) != [] && (Names(f.path) == [name] || Names(f.path)[0] != name)
    ensures TargetsOk(t, files)
  {
    OneFileTree(t, name);
    forall f | f in files ensures FitsAt(t, f) {
      forall q <- StrictPrefixes(Names(f.path), 0) ensures q != [name] {
        assert q != [] ==> q[0] == Names(f.path)[0];
      }
    }
    FitsTargets(t, files);
  }

  lemma OneFileAbsent(t: Tree, name: string, version: nat, x: string)
    requires OneFile(t, name) && Names(x) != [] && Names(x)[0] != name
    ensures Inspect(t, version, x) == Absent
  {
    var p := Names(x);
    forall i | 0 <= i < |p| ensures p[..i] !in t.files { assert i > 0 ==> p[..i][0] == p[0]; }
  }

  lemma NoneOwned(t: Tree, version: nat, c: seq<string>)
    requires forall x <- c :: Inspect(t, version, x) == Absent
    ensures Owned(t, version, c) == Some([])
  {
    OwnedAccepted(t, version, c);
    var stale := Owned(t, version, c).value;
    if stale != [] { OwnedMember(t, version, c, stale[0]); }
  }

  lemma {:induction false} TwoApart(f: GeneratedFile, g: GeneratedFile, files: seq<GeneratedFile>)
    requires files == [f, g] && CanOpen(f) && CanOpen(g) && Names(f.path)[0] != Names(g.path)[0]
    ensures Writable(files)
  {
    assert forall h <- files :: h == f || h == g;
    NotBelow(f, g);
    NotBelow(g, f);
    NotBelow(f, f);
    NotBelow(g, g);
  }

  lemma NotBelow(f: GeneratedFile, g: GeneratedFile)
    requires CanOpen(f) && CanOpen(g) && (f == g || Names(f.path)[0] != Names(g.path)[0])
    ensures Apart(f, g)
  {
  }

  /** A project of a manifest and one file elsewhere. */
  ghost predicate ManifestAnd(files: seq<GeneratedFile>, f: GeneratedFile) {
    && |files| == 2 && files[0].path == MANIFEST && files[1] == f && f.path != MANIFEST
    && AllNormal(Components(f.path)) && CanOpen(f) && Names(f.path)[0] != MANIFEST
  }

  lemma {:induction false} TwoFits(f: GeneratedFile, g: GeneratedFile, files: seq<GeneratedFile>, t: Tree)
    requires files == [f, g] && ValidName(f.path) && OneFile(t, f.path) && f.path != g.path
    requires AllNormal(Components(g.path)) && CanOpen(g) && Names(g.path)[0] != f.path
    ensures ValidFiles(files) && Writable(files) && TargetsOk(t, files) && Expects(files, Join([f.path]))
  {
    PlainName(f.path);
    TwoApart(f, g, files);
    OneFileFits(t, f.path, files);
    assert files[0].path == Join([f.path]);
  }

  /** Over a directory that holds only a manifest such a run completes and deletes nothing. */
  lemma OverManifestCompletes(
    read: ManifestReader, c: seq<string>, f: GeneratedFile, t: Tree, files: seq<GeneratedFile>)
    requires ManifestAnd(files, f) && OneFile(t, MANIFEST) && DeclaredBy(read, t, files) == Some((2, c))
    ensures Completes(read, t, files, [])
  {
    var manifest := files[0];
    assert files == [manifest, f];
    ManifestIsName();
    TwoFits(manifest, f, files, t);
    NoneStale(read, c, t, files);
    OverOneFile(read, manifest.path, t, files);
  }

  lemma NoneStale(read: ManifestReader, c: seq<string>, t: Tree, files: seq<GeneratedFile>)
    requires OneFile(t, MANIFEST) && DeclaredBy(read, t, files) == Some((2, c))
    ensures StaleFiles(read, t, files) == Some([])
  {
    DeclaredMeaning(read, t.files[[MANIFEST]].text, files);
    forall x <- c ensures Inspect(t, 2, x) == Absent { OneFileAbsent(t, MANIFEST, 2, x); }
    NoneOwned(t, 2, c);
    StaleIsOwned(read, t, files);
  }

  lemma OverOneFile(read: ManifestReader, name: string, t: Tree, files: seq<GeneratedFile>)
    requires OneFile(t, name) && ValidFiles(files) && Writable(files) && TargetsOk(t, files)
    requires Expects(files, Join([name])) && StaleFiles(read, t, files) == Some([])
    ensures Completes(read, t, files, [])
  {
    OneFileTree(t, name);
    assert Plan(read, t, files) == Some([]);
    RunCompletes(read, t, files);
  }

  lemma ModulePath(name: string)
    requires ValidName(name) && HasTsExtension(name)
    ensures ValidModulePath(Join(["operations", name])) && Names(Join(["operations", name])) == ["operations", name]
  {
    var p := ["operations", name];
    JoinNames(p);
    SegmentsJoin(p);
    assert [name][1..] == [] && p[1..] == [name];
    assert OfSegments([name]) == [Normal(name)];
    assert OfSegments(p) == [Normal("operations"), Normal(name)];
    assert Join(p)[0] == 'o';
  }

  lemma OneDeclared(read: ManifestReader, source: string, x: string, files: seq<GeneratedFile>)
    requires read(source) == Provenance(Some(2), Some([Some(x)])) && Utf8Length(source) <= MAX_MANIFEST_BYTES
    requires ValidModulePath(x) && !Expects(files, x)
    ensures Declared(read, source, files) == Some((2, [x]))
  {
    assert [Some(x)][..0] == [];
    assert Candidates([], files) == Some([]);
    assert Candidates([Some(x)], files) == Some(InsertUnique(x, []));
  }

  lemma BelowModule(dir: string, name: string, below: string, path: string, x: string)
    requires ValidName(dir) && ValidName(name) && ValidName(below)
    requires x == Join([dir, name]) && path == Join([dir, name, below])
    ensures AllNormal(Components(path)) && !DirSpelling(path) && Names(path) == [dir, name, below] && x != path
    ensures Names(x) in StrictPrefixes(Names(path), 0)
  {
    var p := [dir, name, below];
    JoinNames(p);
    JoinNames([dir, name]);
    assert p[..2] == [dir, name];
  }

  lemma {:induction false} Elsewhere(path: string, x: string, files: seq<GeneratedFile>)
    requires |files| == 2 && files[0].path == MANIFEST && files[1].path == path && x != path
    requires AllNormal(Components(path)) && !DirSpelling(path) && |Names(path)| > 1 && Names(path)[0] != MANIFEST
    requires Names(x) != [] && Names(x)[0] != MANIFEST
    ensures ManifestAnd(files, files[1]) && !Expects(files, x)
  {
    ManifestIsName();
    OtherPlace(files[0].path, x);
    OtherPlace(files[0].path, path);
  }

  lemma OtherPlace(name: string, path: string)
    requires ValidName(name) && Names(path) != [] && Names(path)[0] != name
    ensures path != name
  {
    PlainName(name);
  }

  /**
   The old manifest names a module that is gone, and the new project has a file below that
   path: a stop before the manifest is written leaves a directory there, and no rerun passes.
   */
  lemma ModuleBecomesDirectory(
    read: ManifestReader, source: string, name: string, below: string, x: string, t: Tree, files: seq<GeneratedFile>)
    requires ValidName(name) && HasTsExtension(name) && ValidName(below) && x == Join(["operations", name])
    requires |files| == 2 && files[0].path == MANIFEST && files[1].path == Join(["operations", name, below])
    requires read(source) == Provenance(Some(2), Some([Some(x)])) && Utf8Length(source) <= MAX_MANIFEST_BYTES
    requires OneFile(t, MANIFEST) && t.files[[MANIFEST]] == Text(source)
    ensures Completes(read, t, files, []) && !RecoversEverywhere(read, t, files, [])
  {
    ModulePath(name);
    BelowModule("operations", name, below, files[1].path, x);
    Elsewhere(files[1].path, x, files);
    OneDeclared(read, source, x, files);
    BelowModuleFails(read, x, t, files);
  }

  lemma BelowModuleFails(read: ManifestReader, x: string, t: Tree, files: seq<GeneratedFile>)
    requires |files| == 2 && ManifestAnd(files, files[1]) && OneFile(t, MANIFEST)
    requires DeclaredBy(read, t, files) == Some((2, [x])) && Names(x) in StrictPrefixes(Names(files[1].path), 0)
    ensures Completes(read, t, files, []) && !RecoversEverywhere(read, t, files, [])
  {
    OverManifestCompletes(read, [x], files[1], t, files);
    assert x in [x];
    PreviousModuleInTheWay(read, t, files, [], 2, [x], files[1], x, x);
  }

  // ---------------------------------------------------------------- a run that meets every condition

  /** A first run is recoverable: a manifest that names no operations, and any other file beside it. */
  lemma FirstRunIsRecoverable(read: ManifestReader, name: string, files: seq<GeneratedFile>, t: Tree)
    requires ValidName(name) && name != MANIFEST && t == Tree(map[], {})
    requires |files| == 2 && files[0].path == MANIFEST && files[1].path == name
    requires Utf8Length(files[0].contents) <= MAX_MANIFEST_BYTES
    requires read(files[0].contents) == Provenance(Some(2), Some([]))
    ensures Completes(read, t, files, []) && RecoversEverywhere(read, t, files, [])
  {
    ManifestIsName();
    TwoPlainFiles(MANIFEST, name, files);
    assert Declared(read, files[0].contents, files) == Some((2, []));
    NoModules(read, t, files);
  }

  lemma NoModules(read: ManifestReader, t: Tree, files: seq<GeneratedFile>)
    requires t == Tree(map[], {}) && ValidFiles(files) && Writable(files) && [MANIFEST] !in Dirs(files)
    requires DeclaredAfter(read, files) == Some((2, []))
    requires forall f <- files :: Expects(files, Join(Names(f.path)))
    ensures Completes(read, t, files, []) && RecoversEverywhere(read, t, files, [])
  {
    FirstRun(read, t, files);
    RecoveryExact(read, t, files, []);
  }

  lemma TwoPlainFiles(a: string, b: string, files: seq<GeneratedFile>)
    requires ValidName(a) && ValidName(b) && a != b && |files| == 2 && files[0].path == a && files[1].path == b
    ensures ValidFiles(files) && Writable(files) && [a] !in Dirs(files)
    ensures forall f <- files :: Expects(files, Join(Names(f.path)))
  {
    PlainName(a);
    PlainName(b);
    assert forall f <- files :: f == files[0] || f == files[1];
    forall f, g | f in files && g in files ensures Apart(f, g) {
      assert |Names(f.path)| == |Names(g.path)| == 1;
    }
    forall f, j | f in files && 0 <= j < |Names(f.path)| ensures Names(f.path)[..j] == [] {
      assert j == 0;
    }
  }
}
