/**
 The generator after a stop at any step: exactly when running it again finishes the job.
 */
module ClientRecovery {
  import opened Wrappers
  import opened Collections
  import opened Paths
  import opened ClientTree
  import opened ClientSync
  import opened ClientCheck
  import opened ClientStops

  /** The version and stale candidates that the manifest on disk declares; nothing without a manifest. */
  function DeclaredBy(read: ManifestReader, t: Tree, files: seq<GeneratedFile>): Option<(nat, seq<string>)> {
    if [MANIFEST] in t.dirs then None
    else if [MANIFEST] !in t.files then Some((2, []))
    else if t.files[[MANIFEST]].Binary? then None
    else Declared(read, t.files[[MANIFEST]].text, files)
  }

  // ---------------------------------------------------------------- what a plan needs

  ghost predicate Unblocked(t: Tree, version: nat, c: seq<string>) {
    forall x <- c :: Inspect(t, version, x) != Blocked
  }

  ghost predicate Covered(t: Tree, files: seq<GeneratedFile>, c: seq<string>) {
    forall p <- t.files.Keys :: Expects(files, Join(p)) || Spells(c, p)
  }

  /** No two of the paths name one of the places. */
  ghost predicate NoTwins(places: set<Path>, c: seq<string>) {
    forall x <- c, y <- c | Names(x) == Names(y) && Names(x) in places :: x == y
  }

  ghost predicate Resumable(t: Tree, files: seq<GeneratedFile>, declared: Option<(nat, seq<string>)>) {
    && declared.Some?
    && Unblocked(t, declared.value.0, declared.value.1)
    && Covered(t, files, declared.value.1)
    && NoTwins(t.files.Keys, declared.value.1)
  }

  lemma StaleIsOwned(read: ManifestReader, t: Tree, files: seq<GeneratedFile>)
    ensures var d := DeclaredBy(read, t, files);
            && StaleFiles(read, t, files) == (if d.None? then None else Owned(t, d.value.0, d.value.1))
            && (d.Some? ==> Distinct(d.value.1))
  {
    if [MANIFEST] !in t.dirs && [MANIFEST] in t.files && t.files[[MANIFEST]].Text? {
      var source := t.files[[MANIFEST]].text;
      if Declared(read, source, files).Some? { DeclaredMeaning(read, source, files); }
    }
  }

  lemma ImageDistinct<T, U>(f: T -> U, xs: seq<T>, ys: seq<U>)
    requires Distinct(xs) && |ys| == |xs| && forall i | 0 <= i < |xs| :: ys[i] == f(xs[i])
    ensures Distinct(ys) <==> forall x <- xs, y <- xs | f(x) == f(y) :: x == y
  {
    if Distinct(ys) {
      forall x <- xs, y <- xs | f(x) == f(y) ensures x == y {
        var i :| 0 <= i < |xs| && xs[i] == x;
        var j :| 0 <= j < |xs| && xs[j] == y;
        assert ys[i] == ys[j];
      }
    } else {
      var i, j :| 0 <= i < j < |ys| && ys[i] == ys[j];
      assert xs[i] in xs && xs[j] in xs && f(xs[i]) == f(xs[j]);
    }
  }

  /** On candidates that are not blocked, the owned ones are those whose place holds a file. */
  lemma OwnedPresent(t: Tree, version: nat, c: seq<string>, x: string)
    requires Unblocked(t, version, c)
    ensures Owned(t, version, c).Some?
    ensures x in Owned(t, version, c).value <==> x in c && Names(x) in t.files
  {
    OwnedAccepted(t, version, c);
    OwnedMember(t, version, c, x);
  }

  lemma SpelledBy(paths: seq<string>, p: Path) returns (x: string)
    requires Spells(paths, p)
    ensures x in paths && Names(x) == p
  {
    var i :| 0 <= i < |paths| && Names(paths[i]) == p;
    x := paths[i];
  }

  lemma SpellsNames(paths: seq<string>, x: string)
    requires x in paths
    ensures Spells(paths, Names(x))
  {
    var i :| 0 <= i < |paths| && paths[i] == x;
  }

  /** Among the places that hold files, the owned candidates spell what all candidates spell. */
  lemma OwnedSpells(t: Tree, version: nat, c: seq<string>, stale: seq<string>, p: Path)
    requires Unblocked(t, version, c) && Owned(t, version, c) == Some(stale) && p in t.files
    ensures Spells(stale, p) <==> Spells(c, p)
  {
    if Spells(stale, p) {
      var x := SpelledBy(stale, p);
      OwnedPresent(t, version, c, x);
      SpellsNames(c, x);
    }
    if Spells(c, p) {
      var x := SpelledBy(c, p);
      OwnedPresent(t, version, c, x);
      SpellsNames(stale, x);
    }
  }

  lemma OwnedCovers(t: Tree, files: seq<GeneratedFile>, version: nat, c: seq<string>, stale: seq<string>)
    requires Unblocked(t, version, c) && Owned(t, version, c) == Some(stale) && |t.files| <= MAX_FILES
    ensures Converges(t, files, stale) <==> Covered(t, files, c)
  {
    forall p <- t.files.Keys ensures Spells(stale, p) <==> Spells(c, p) {
      OwnedSpells(t, version, c, stale, p);
    }
  }

  lemma OwnedTwins(t: Tree, version: nat, c: seq<string>)
    requires Unblocked(t, version, c) && Distinct(c)
    ensures Owned(t, version, c).Some?
    ensures Distinct(PlacesOf(Owned(t, version, c).value)) <==> NoTwins(t.files.Keys, c)
  {
    OwnedAccepted(t, version, c);
    OwnedDistinct(t, version, c);
    var stale := Owned(t, version, c).value;
    forall x ensures x in stale <==> x in c && Names(x) in t.files { OwnedPresent(t, version, c, x); }
    ImageDistinct(Names, stale, PlacesOf(stale));
  }

  /** A tree that passed the target check is planned, without deleting twice, exactly when it is resumable. */
  lemma PlanExact(read: ManifestReader, t: Tree, files: seq<GeneratedFile>)
    requires ValidFiles(files) && TargetsOk(t, files) && |t.files| <= MAX_FILES
    ensures Plan(read, t, files).Some? && Distinct(PlacesOf(Plan(read, t, files).value))
       <==> Resumable(t, files, DeclaredBy(read, t, files))
  {
    var d := DeclaredBy(read, t, files);
    StaleIsOwned(read, t, files);
    if d.Some? {
      OwnedAccepted(t, d.value.0, d.value.1);
      if Unblocked(t, d.value.0, d.value.1) {
        OwnedCovers(t, files, d.value.0, d.value.1, Owned(t, d.value.0, d.value.1).value);
        OwnedTwins(t, d.value.0, d.value.1);
      }
    }
  }

  // ---------------------------------------------------------------- the condition

  /** The path runs through no directory and no file that is there after the run. */
  ghost predicate Clear(files: seq<GeneratedFile>, dirs: set<Path>, x: string) {
    Names(x) !in dirs && Names(x) !in Dirs(files) && StrictPrefixes(Names(x), 0) !! Keys(files)
  }

  predicate Owns(version: nat, x: string, contents: string) {
    !DirSpelling(x) && Utf8Length(contents) <= MAX_ARTIFACT_BYTES && HasMarker(version, x, contents)
  }

  /**
   A manifest that declares these modules lets the generator run over its own output: every
   module path is clear, a project text in the place of a module carries the marker, no two
   modules share a project place, and each project file is expected under its portable
   spelling or is such a module.
   */
  ghost predicate Safe(
    files: seq<GeneratedFile>, texts: set<GeneratedFile>, dirs: set<Path>, declared: Option<(nat, seq<string>)>)
  {
    && declared.Some?
    && (forall x <- declared.value.1 :: Clear(files, dirs, x))
    && (forall x <- declared.value.1, f <- texts | Names(f.path) == Names(x) :: Owns(declared.value.0, x, f.contents))
    && NoTwins(Keys(files), declared.value.1)
    && forall f <- files :: Expects(files, Join(Names(f.path))) || Spells(declared.value.1, Names(f.path))
  }

  /** The files whose text a completed run leaves. */
  ghost function Latest(files: seq<GeneratedFile>): set<GeneratedFile> {
    set f <- files | Shows(Final(files), f)
  }

  function ManifestOf(files: seq<GeneratedFile>): (m: Option<GeneratedFile>)
    ensures m.Some? ==> m.value in files && m.value.path == MANIFEST
    ensures m.None? ==> forall f <- files :: f.path != MANIFEST
  {
    if files == [] then None
    else if files[0].path == MANIFEST then Some(files[0])
    else
      assert files == [files[0]] + files[1..];
      ManifestOf(files[1..])
  }

  /** What the project's own manifest declares against the project. */
  function DeclaredAfter(read: ManifestReader, files: seq<GeneratedFile>): Option<(nat, seq<string>)> {
    var m := ManifestOf(files);
    if m.None? then Some((2, [])) else Declared(read, m.value.contents, files)
  }

  /** What a caller can check before a run, on the tree it starts from and the project it writes. */
  ghost predicate Recoverable(read: ManifestReader, t0: Tree, files: seq<GeneratedFile>) {
    && [MANIFEST] !in Dirs(files)
    && Safe(files, Set(files), t0.dirs, DeclaredBy(read, t0, files))
    && Safe(files, Latest(files), t0.dirs, DeclaredAfter(read, files))
  }

  /** The same project, run again on the tree `t`, passes every check and ends like the run `whole`. */
  ghost predicate Recovers(read: ManifestReader, t: Tree, files: seq<GeneratedFile>, whole: Ran) {
    Plan(read, t, files).Some? && Run(t, Script(Plan(read, t, files).value, files)) == whole
  }

  // ---------------------------------------------------------------- a stopped run can be looked at again

  lemma {:induction false} FitsTargets(t: Tree, files: seq<GeneratedFile>)
    requires WellFormed(t) && Fits(t, files) && [] !in t.files
    ensures TargetsOk(t, files)
  {
    if [] in t.dirs {
      forall i | 0 <= i < |files| ensures InspectTarget(t, Names(files[i].path), 0) {
        var p := Names(files[i].path);
        assert FitsAt(t, files[i]);
        assert p[..0] == [];
        InspectTargetMeaning(t, p, 0);
        forall j | 0 < j < |p| ensures p[..j] !in t.files {
          assert p[..j] in StrictPrefixes(p, 0);
        }
      }
    }
  }

  lemma {:induction false} BetweenFits(t0: Tree, files: seq<GeneratedFile>, places: set<Path>, t: Tree)
    requires Between(t0, files, places, t) && Fits(t0, files) && Writable(files) && [] !in t0.files
    ensures Fits(t, files) && [] !in t.files
  {
    forall f | f in files ensures FitsAt(t, f) {
      assert CanOpen(f);
      forall g | g in files ensures Apart(f, g) && Apart(g, f) {
      }
    }
  }

  lemma BetweenCount(t0: Tree, files: seq<GeneratedFile>, places: set<Path>, t: Tree)
    requires Between(t0, files, places, t) && |t0.files| <= MAX_FILES && ValidFiles(files)
    ensures |t.files| <= MAX_FILES
  {
    KeysCount(files);
    assert |t.files| == |t.files.Keys| && |t0.files| == |t0.files.Keys|;
    if t.files.Keys <= t0.files.Keys { Subset(t.files.Keys, t0.files.Keys); }
    if t.files.Keys <= Keys(files) { Subset(t.files.Keys, Keys(files)); }
  }

  lemma TargetsAgain(t0: Tree, files: seq<GeneratedFile>, places: set<Path>, t: Tree)
    requires WellFormed(t0) && TargetsOk(t0, files) && Writable(files) && Between(t0, files, places, t)
    ensures TargetsOk(t, files)
  {
    TargetsFit(t0, files);
    BetweenFits(t0, files, places, t);
    FitsTargets(t, files);
  }

  lemma EndOf(read: ManifestReader, t: Tree, files: seq<GeneratedFile>, stale: seq<string>)
    requires WellFormed(t) && Plan(read, t, files) == Some(stale)
    ensures var r := Run(t, Script(stale, files));
            && (r.ok <==> Writable(files) && Distinct(PlacesOf(stale)))
            && (r.ok ==> r.tree == Tree(Final(files), t.dirs + Dirs(files)))
  {
    RunCompletes(read, t, files);
    RunConverges(read, t, files);
  }

  lemma SameDirs(t0: Tree, files: seq<GeneratedFile>, places: set<Path>, t: Tree)
    requires Between(t0, files, places, t) && files != [] && Writable(files)
    ensures t.dirs + Dirs(files) == t0.dirs + Dirs(files)
  {
    RootInDirs(files);
  }

  lemma SameEnd(
    read: ManifestReader, t0: Tree, files: seq<GeneratedFile>, stale: seq<string>, places: set<Path>, t: Tree,
    again: seq<string>)
    requires WellFormed(t0) && Plan(read, t0, files) == Some(stale) && Run(t0, Script(stale, files)).ok
    requires Between(t0, files, places, t) && Plan(read, t, files) == Some(again)
    ensures Run(t, Script(again, files)) == Run(t0, Script(stale, files)) <==> Distinct(PlacesOf(again))
  {
    EndOf(read, t0, files, stale);
    EndOf(read, t, files, again);
    SameDirs(t0, files, places, t);
  }

  /** Wherever a completed run is stopped, the rerun recovers exactly when the tree is resumable. */
  lemma RecoversExact(read: ManifestReader, t0: Tree, files: seq<GeneratedFile>, places: set<Path>, t: Tree)
    requires WellFormed(t0) && Plan(read, t0, files).Some? && Run(t0, Script(Plan(read, t0, files).value, files)).ok
    requires Between(t0, files, places, t)
    ensures Recovers(read, t, files, Run(t0, Script(Plan(read, t0, files).value, files)))
       <==> Resumable(t, files, DeclaredBy(read, t, files))
  {
    RunConverges(read, t0, files);
    TargetsAgain(t0, files, places, t);
    BetweenCount(t0, files, places, t);
    PlanExact(read, t, files);
    if Plan(read, t, files).Some? {
      SameEnd(read, t0, files, Plan(read, t0, files).value, places, t, Plan(read, t, files).value);
    }
  }

  // ---------------------------------------------------------------- before the manifest is written

  /** A previous module is no more blocked on a stopped tree than it was at the start. */
  lemma InspectAgain(t0: Tree, files: seq<GeneratedFile>, places: set<Path>, t: Tree, version: nat, x: string)
    requires Between(t0, files, places, t) && Inspect(t0, version, x) != Blocked && [] in Dirs(files)
    requires Clear(files, t0.dirs, x)
    requires forall f <- files | Names(f.path) == Names(x) :: Owns(version, x, f.contents)
    ensures Inspect(t, version, x) != Blocked
  {
    var p := Names(x);
    forall i | 0 <= i < |p| ensures p[..i] !in t.files {
      assert p[..i] in StrictPrefixes(p, 0);
      if p[..i] in t0.files { assert PrefixIsFile(t0, p); }
    }
  }

  /** While the old manifest is there, a safe project leaves every stopped tree resumable. */
  lemma OldManifestSuffices(
    t0: Tree, files: seq<GeneratedFile>, places: set<Path>, t: Tree, declared: Option<(nat, seq<string>)>)
    requires Between(t0, files, places, t) && [] in Dirs(files)
    requires Resumable(t0, files, declared) && Safe(files, Set(files), t0.dirs, declared)
    ensures Resumable(t, files, declared)
  {
    var (version, c) := declared.value;
    forall x <- c ensures Inspect(t, version, x) != Blocked {
      InspectAgain(t0, files, places, t, version, x);
    }
    forall p <- t.files.Keys ensures Expects(files, Join(p)) || Spells(c, p) {
    }
    forall x <- c, y <- c | Names(x) == Names(y) && Names(x) in t.files ensures x == y {
      assert Names(x) in t0.files || Names(x) in Keys(files);
    }
  }

  lemma SameDeclared(read: ManifestReader, t0: Tree, files: seq<GeneratedFile>, t: Tree)
    requires SameAt(t0, t, [MANIFEST]) && [MANIFEST] !in t0.dirs && [MANIFEST] !in t.dirs
    ensures DeclaredBy(read, t, files) == DeclaredBy(read, t0, files)
  {
  }

  /** What a resumable tree says of the candidates and a project file it shows. */
  ghost predicate SafeFor(files: seq<GeneratedFile>, f: GeneratedFile, version: nat, c: seq<string>) {
    var p := Names(f.path);
    && (forall x <- c :: Names(x) !in StrictPrefixes(p, 0) && p !in StrictPrefixes(Names(x), 0))
    && (forall x <- c | p == Names(x) :: Owns(version, x, f.contents))
    && NoTwins({p}, c)
    && (Expects(files, Join(p)) || Spells(c, p))
  }

  lemma ShownIsSafe(t: Tree, files: seq<GeneratedFile>, f: GeneratedFile, declared: Option<(nat, seq<string>)>)
    requires Shows(t.files, f) && StrictPrefixes(Names(f.path), 0) <= t.dirs && Resumable(t, files, declared)
    ensures SafeFor(files, f, declared.value.0, declared.value.1)
  {
    var p := Names(f.path);
    var (version, c) := declared.value;
    forall x <- c
      ensures Names(x) !in StrictPrefixes(p, 0) && p !in StrictPrefixes(Names(x), 0)
      ensures p == Names(x) ==> Owns(version, x, f.contents)
    {
      assert Inspect(t, version, x) != Blocked;
      assert !PrefixIsFile(t, Names(x));
    }
  }

  /** Being safe is being safe for each file. */
  lemma SafeForEach(files: seq<GeneratedFile>, dirs: set<Path>, declared: Option<(nat, seq<string>)>)
    requires declared.Some? && (forall x <- declared.value.1 :: Names(x) !in dirs)
    requires forall f <- files :: SafeFor(files, f, declared.value.0, declared.value.1)
    ensures Safe(files, Set(files), dirs, declared)
  {
    var (version, c) := declared.value;
    forall x <- c ensures Clear(files, dirs, x) {
      forall p <- Keys(files) ensures p !in StrictPrefixes(Names(x), 0) {
        var f :| f in files && Names(f.path) == p;
        assert SafeFor(files, f, version, c);
      }
      forall d <- Dirs(files) ensures d != Names(x) {
        var f, j :| f in files && 0 <= j < |Names(f.path)| && d == Names(f.path)[..j];
        assert SafeFor(files, f, version, c) && d in StrictPrefixes(Names(f.path), 0);
      }
    }
    forall x <- c, y <- c | Names(x) == Names(y) && Names(x) in Keys(files) ensures x == y {
      var f :| f in files && Names(f.path) == Names(x);
      assert SafeFor(files, f, version, c);
    }
  }

  // ---------------------------------------------------------------- every write shows before the manifest

  lemma {:induction false} WritesConcat(a: seq<GeneratedFile>, b: seq<GeneratedFile>)
    ensures Writes(a + b) == Writes(a) + Writes(b)
  {
    if a == [] {
      assert a + b == b;
    } else {
      assert (a + b)[1..] == a[1..] + b;
      WritesConcat(a[1..], b);
    }
  }

  lemma {:induction false} WriteAllConcat(m: map<Path, Contents>, a: seq<GeneratedFile>, b: seq<GeneratedFile>)
    ensures WriteAll(m, a + b) == WriteAll(WriteAll(m, a), b)
    decreases a
  {
    if a == [] {
      assert a + b == b;
    } else {
      assert (a + b)[1..] == a[1..] + b;
      WriteAllConcat(m[Names(a[0].path) := Text(a[0].contents)], a[1..], b);
    }
  }

  /** After the writes up to and including `f`, its text and its directories are there. */
  lemma WrittenShows(t: Tree, before: seq<GeneratedFile>, f: GeneratedFile)
    requires Run(t, Writes(before + [f])).ok
    ensures var r := Run(t, Writes(before + [f])).tree;
            Shows(r.files, f) && StrictPrefixes(Names(f.path), 0) <= r.dirs
  {
    WritesOutcome(t, before + [f]);
    WriteAllConcat(t.files, before, [f]);
    assert [f][1..] == [];
    assert f in before + [f];
    forall d <- StrictPrefixes(Names(f.path), 0) ensures d in Dirs(before + [f]) {
    }
  }

  lemma PrefixOk(t: Tree, a: seq<Step>, b: seq<Step>)
    requires Run(t, a + b).ok
    ensures Run(t, a).ok && Run(t, a + b) == Run(Run(t, a).tree, b)
  {
    RunConcat(t, a, b);
  }

  lemma StopInside(t: Tree, a: seq<Step>, b: seq<Step>, c: seq<Step>)
    requires Run(t, a + (b + c)).ok
    ensures |a + b| <= |a + (b + c)| && StoppedAt(t, a + (b + c), |a + b|) == Run(Run(t, a).tree, b).tree
    ensures Run(Run(t, a).tree, b).ok
  {
    assert a + (b + c) == (a + b) + c && ((a + b) + c)[..|a + b|] == a + b;
    PrefixOk(t, a + b, c);
    PrefixOk(t, a, b);
  }

  lemma WritesSplit(order: seq<GeneratedFile>, i: nat)
    requires i < |order|
    ensures Writes(order) == Writes(order[..i] + [order[i]]) + Writes(order[i + 1..])
    ensures i + 1 < |order| ==> |Writes(order[i + 1..])| > 0
  {
    assert order == (order[..i] + [order[i]]) + order[i + 1..];
    WritesConcat(order[..i] + [order[i]], order[i + 1..]);
  }

  /** A run stopped right after the write of the file at `i`, before the next one. */
  lemma StopAfterWrite(t: Tree, head: seq<Step>, order: seq<GeneratedFile>, i: nat) returns (k: nat)
    requires i < |order| && Run(t, head + Writes(order)).ok
    ensures k <= |head + Writes(order)| && (i + 1 < |order| ==> k < |head + Writes(order)|)
    ensures Shows(StoppedAt(t, head + Writes(order), k).files, order[i])
    ensures StrictPrefixes(Names(order[i].path), 0) <= StoppedAt(t, head + Writes(order), k).dirs
  {
    WritesSplit(order, i);
    var a, b := Writes(order[..i] + [order[i]]), Writes(order[i + 1..]);
    k := |head + a|;
    StopInside(t, head, a, b);
    WrittenShows(Run(t, head).tree, order[..i], order[i]);
  }

  lemma LastIsManifest(order: seq<GeneratedFile>, m: GeneratedFile, i: nat)
    requires ManifestLast(order) && m in order && m.path == MANIFEST && i < |order| && order[i].path != MANIFEST
    ensures i + 1 < |order|
  {
    var j :| 0 <= j < |order| && order[j] == m;
  }

  lemma NotLast(files: seq<GeneratedFile>, i: nat)
    requires ValidFiles(files) && i < |WriteOrder(files)| && WriteOrder(files)[i].path != MANIFEST
    ensures ManifestOf(files).None? || i + 1 < |WriteOrder(files)|
  {
    if ManifestOf(files).Some? {
      assert ManifestOf(files).value in WriteOrder(files) by { SameFiles(WriteOrder(files), files); }
      WriteOrderManifestLast(files);
      LastIsManifest(WriteOrder(files), ManifestOf(files).value, i);
    }
  }

  lemma NoManifestBefore(read: ManifestReader, t0: Tree, files: seq<GeneratedFile>)
    requires Plan(read, t0, files).Some? && ManifestOf(files).None?
    ensures [MANIFEST] !in t0.files
  {
    var stale := Plan(read, t0, files).value;
    PlannedPlaces(read, t0, files);
    SpellsMeaning(stale, [MANIFEST]);
    assert Join([MANIFEST]) == MANIFEST && !Expects(files, MANIFEST);
  }

  lemma ManifestStays(read: ManifestReader, t0: Tree, files: seq<GeneratedFile>, stale: seq<string>, k: nat)
    requires WellFormed(t0) && Plan(read, t0, files) == Some(stale) && Run(t0, Script(stale, files)).ok
    requires k < |Script(stale, files)| || (k == |Script(stale, files)| && ManifestOf(files).None?)
    ensures SameAt(t0, StoppedAt(t0, Script(stale, files), k), [MANIFEST])
  {
    StoppedBetween(read, t0, files, k);
    if k == |Script(stale, files)| {
      NoManifestBefore(read, t0, files);
      RunConverges(read, t0, files);
      NoManifestIn(files);
      assert Script(stale, files)[..k] == Script(stale, files);
    }
  }

  /** Every project file but the manifest is visible at a step where the manifest is still the old one. */
  lemma WriteIsVisible(read: ManifestReader, t0: Tree, files: seq<GeneratedFile>, stale: seq<string>, f: GeneratedFile)
    returns (k: nat)
    requires WellFormed(t0) && Plan(read, t0, files) == Some(stale) && Run(t0, Script(stale, files)).ok
    requires f in files && f.path != MANIFEST
    ensures k <= |Script(stale, files)|
    ensures var t := StoppedAt(t0, Script(stale, files), k);
            Shows(t.files, f) && StrictPrefixes(Names(f.path), 0) <= t.dirs && SameAt(t0, t, [MANIFEST])
  {
    var order := WriteOrder(files);
    SameFiles(order, files);
    var i :| 0 <= i < |order| && order[i] == f;
    k := StopAfterWrite(t0, [MakeDir([])] + Removes(PlacesOf(stale)), order, i);
    NotLast(files, i);
    ManifestStays(read, t0, files, stale, k);
  }

  /** Without a manifest in the project none is written. */
  lemma NoManifestIn(files: seq<GeneratedFile>)
    requires ValidFiles(files) && Writable(files) && ManifestOf(files).None?
    ensures [MANIFEST] !in Final(files)
  {
    FinalDomain(files);
    if [MANIFEST] in Keys(files) {
      var f :| f in files && Names(f.path) == [MANIFEST];
      assert CanOpen(f);
      ManifestSpelling(files, f);
    }
  }

  // ---------------------------------------------------------------- after the manifest is written

  /** The manifest a completed run leaves is the project's own. */
  lemma DeclaredFinally(read: ManifestReader, t: Tree, files: seq<GeneratedFile>)
    requires ValidFiles(files) && Writable(files) && t.files == Final(files) && [MANIFEST] !in t.dirs
    ensures DeclaredBy(read, t, files) == DeclaredAfter(read, files)
  {
    var m := ManifestOf(files);
    if m.Some? {
      FinalManifest(files, m.value);
    } else {
      NoManifestIn(files);
    }
  }

  lemma FinalKeys(files: seq<GeneratedFile>)
    ensures Final(files).Keys == Keys(files)
    ensures forall p <- Keys(files) :: p in Final(files) && Final(files)[p].Text?
  {
    FinalDomain(files);
    forall p <- Keys(files) ensures p in Final(files) && Final(files)[p].Text? {
      var f := FinalSource(files, p);
    }
  }

  /** One module path on the finished tree. */
  lemma InspectFinally(t: Tree, files: seq<GeneratedFile>, dirs: set<Path>, version: nat, x: string)
    requires t == Tree(Final(files), dirs + Dirs(files))
    ensures Inspect(t, version, x) != Blocked
       <==> Clear(files, dirs, x)
            && forall f <- Latest(files) | Names(f.path) == Names(x) :: Owns(version, x, f.contents)
  {
    var p := Names(x);
    FinalKeys(files);
    PrefixFree(t, p);
    if p in Keys(files) {
      var f := FinalSource(files, p);
      assert f in Latest(files);
    }
  }

  lemma PrefixFree(t: Tree, p: Path)
    ensures PrefixIsFile(t, p) <==> !(StrictPrefixes(p, 0) !! t.files.Keys)
  {
    if PrefixIsFile(t, p) {
      var i :| 0 <= i < |p| && p[..i] in t.files;
      assert p[..i] in StrictPrefixes(p, 0);
    }
  }

  /** The finished tree is resumable exactly when the project's own manifest is safe. */
  lemma FinishedExact(t: Tree, files: seq<GeneratedFile>, dirs: set<Path>, declared: Option<(nat, seq<string>)>)
    requires t == Tree(Final(files), dirs + Dirs(files))
    ensures Resumable(t, files, declared) <==> Safe(files, Latest(files), dirs, declared)
  {
    FinalKeys(files);
    if declared.Some? {
      var (version, c) := declared.value;
      forall x <- c
        ensures Inspect(t, version, x) != Blocked
           <==> Clear(files, dirs, x)
                && forall f <- Latest(files) | Names(f.path) == Names(x) :: Owns(version, x, f.contents)
      {
        InspectFinally(t, files, dirs, version, x);
      }
      CoveredFinally(t, files, c);
    }
  }

  lemma CoveredFinally(t: Tree, files: seq<GeneratedFile>, c: seq<string>)
    requires t.files.Keys == Keys(files)
    ensures Covered(t, files, c)
            <==> forall f <- files :: Expects(files, Join(Names(f.path))) || Spells(c, Names(f.path))
  {
    if Covered(t, files, c) {
      forall f <- files ensures Expects(files, Join(Names(f.path))) || Spells(c, Names(f.path)) {
        assert Names(f.path) in t.files.Keys;
      }
    }
  }

  // ---------------------------------------------------------------- the whole run

  /** Stopped after `k` steps of the script and run again, the project ends as if it had not been stopped. */
  ghost predicate RecoversAt(read: ManifestReader, t0: Tree, files: seq<GeneratedFile>, script: seq<Step>, k: nat) {
    k <= |script| && Recovers(read, StoppedAt(t0, script, k), files, Run(t0, script))
  }

  ghost predicate RecoversEverywhere(read: ManifestReader, t0: Tree, files: seq<GeneratedFile>, stale: seq<string>) {
    forall k: nat | k <= |Script(stale, files)| :: RecoversAt(read, t0, files, Script(stale, files), k)
  }

  /** The run passes validation and completes. */
  ghost predicate Completes(read: ManifestReader, t0: Tree, files: seq<GeneratedFile>, stale: seq<string>) {
    WellFormed(t0) && Plan(read, t0, files) == Some(stale) && Run(t0, Script(stale, files)).ok
  }

  lemma StartIsResumable(read: ManifestReader, t0: Tree, files: seq<GeneratedFile>, stale: seq<string>)
    requires Completes(read, t0, files, stale)
    ensures Resumable(t0, files, DeclaredBy(read, t0, files)) && [MANIFEST] !in t0.dirs && [] in Dirs(files)
  {
    RunCompletes(read, t0, files);
    PlanExact(read, t0, files);
    RunConverges(read, t0, files);
    RootInDirs(files);
  }

  lemma StopRecovers(read: ManifestReader, t0: Tree, files: seq<GeneratedFile>, stale: seq<string>, k: nat)
    requires Completes(read, t0, files, stale) && k <= |Script(stale, files)|
    ensures var t := StoppedAt(t0, Script(stale, files), k);
            RecoversAt(read, t0, files, Script(stale, files), k) <==> Resumable(t, files, DeclaredBy(read, t, files))
  {
    StoppedBetween(read, t0, files, k);
    RecoversExact(read, t0, files, Set(PlacesOf(stale)), StoppedAt(t0, Script(stale, files), k));
  }

  lemma EndsIn(read: ManifestReader, t0: Tree, files: seq<GeneratedFile>, stale: seq<string>)
    requires Completes(read, t0, files, stale)
    ensures StoppedAt(t0, Script(stale, files), |Script(stale, files)|) == Tree(Final(files), t0.dirs + Dirs(files))
    ensures Writable(files)
  {
    var script := Script(stale, files);
    assert script[..|script|] == script;
    RunConverges(read, t0, files);
  }

  lemma StopIsResumable(read: ManifestReader, t0: Tree, files: seq<GeneratedFile>, places: set<Path>, t: Tree)
    requires StoppedIn(t0, files, places, t) && [] in Dirs(files) && [MANIFEST] !in Dirs(files)
             && [MANIFEST] !in t0.dirs
    requires Resumable(t0, files, DeclaredBy(read, t0, files))
    requires Safe(files, Set(files), t0.dirs, DeclaredBy(read, t0, files))
    ensures Resumable(t, files, DeclaredBy(read, t, files))
  {
    SameDeclared(read, t0, files, t);
    OldManifestSuffices(t0, files, places, t, DeclaredBy(read, t0, files));
  }

  lemma RecoversEarly(read: ManifestReader, t0: Tree, files: seq<GeneratedFile>, stale: seq<string>, k: nat)
    requires Completes(read, t0, files, stale) && k < |Script(stale, files)|
    requires [MANIFEST] !in Dirs(files) && Safe(files, Set(files), t0.dirs, DeclaredBy(read, t0, files))
    ensures RecoversAt(read, t0, files, Script(stale, files), k)
  {
    StartIsResumable(read, t0, files, stale);
    StoppedBefore(read, t0, files, stale);
    StopIsResumable(read, t0, files, Set(PlacesOf(stale)), StoppedAt(t0, Script(stale, files), k));
    StopRecovers(read, t0, files, stale, k);
  }

  /** A finished run can be repeated exactly when its own manifest is safe. */
  lemma RepeatsExact(read: ManifestReader, t0: Tree, files: seq<GeneratedFile>, stale: seq<string>)
    requires Completes(read, t0, files, stale)
    ensures var script := Script(stale, files);
            RecoversAt(read, t0, files, script, |script|)
            <==> [MANIFEST] !in Dirs(files) && Safe(files, Latest(files), t0.dirs, DeclaredAfter(read, files))
  {
    var t := Tree(Final(files), t0.dirs + Dirs(files));
    StartIsResumable(read, t0, files, stale);
    EndsIn(read, t0, files, stale);
    StopRecovers(read, t0, files, stale, |Script(stale, files)|);
    if [MANIFEST] !in Dirs(files) {
      DeclaredFinally(read, t, files);
      FinishedExact(t, files, t0.dirs, DeclaredAfter(read, files));
    }
  }

  lemma RecoversAllEarly(read: ManifestReader, t0: Tree, files: seq<GeneratedFile>, stale: seq<string>)
    requires Completes(read, t0, files, stale)
    requires [MANIFEST] !in Dirs(files) && Safe(files, Set(files), t0.dirs, DeclaredBy(read, t0, files))
    ensures forall k: nat | k < |Script(stale, files)| :: RecoversAt(read, t0, files, Script(stale, files), k)
  {
    forall k: nat | k < |Script(stale, files)| ensures RecoversAt(read, t0, files, Script(stale, files), k) {
      RecoversEarly(read, t0, files, stale, k);
    }
  }

  lemma EarlyAndLast(read: ManifestReader, t0: Tree, files: seq<GeneratedFile>, script: seq<Step>)
    requires forall k: nat | k < |script| :: RecoversAt(read, t0, files, script, k)
    requires RecoversAt(read, t0, files, script, |script|)
    ensures forall k: nat | k <= |script| :: RecoversAt(read, t0, files, script, k)
  {
  }

  lemma ManifestIsSafe(read: ManifestReader, t0: Tree, files: seq<GeneratedFile>, f: GeneratedFile)
    requires f in files && f.path == MANIFEST && DeclaredBy(read, t0, files).Some?
    ensures SafeFor(files, f, DeclaredBy(read, t0, files).value.0, DeclaredBy(read, t0, files).value.1)
  {
    ManifestNames();
    assert Join([MANIFEST]) == MANIFEST;
    var i :| 0 <= i < |files| && files[i] == f;
    assert Expects(files, MANIFEST);
    if [MANIFEST] in t0.files { DeclaredMeaning(read, t0.files[[MANIFEST]].text, files); }
    var c := DeclaredBy(read, t0, files).value.1;
    forall x <- c ensures Names(x) !in StrictPrefixes([MANIFEST], 0) && [MANIFEST] !in StrictPrefixes(Names(x), 0) {
      assert Names(x) != [] && Names(x)[0] != MANIFEST;
    }
  }

  lemma FileIsSafe(
    read: ManifestReader, t0: Tree, files: seq<GeneratedFile>, stale: seq<string>, f: GeneratedFile)
    requires Completes(read, t0, files, stale) && RecoversEverywhere(read, t0, files, stale) && f in files
    requires DeclaredBy(read, t0, files).Some? && [MANIFEST] !in t0.dirs
    ensures SafeFor(files, f, DeclaredBy(read, t0, files).value.0, DeclaredBy(read, t0, files).value.1)
  {
    if f.path == MANIFEST {
      ManifestIsSafe(read, t0, files, f);
    } else {
      var k := WriteIsVisible(read, t0, files, stale, f);
      var t := StoppedAt(t0, Script(stale, files), k);
      StopRecovers(read, t0, files, stale, k);
      SameDeclared(read, t0, files, t);
      ShownIsSafe(t, files, f, DeclaredBy(read, t0, files));
    }
  }

  lemma RecoverableNeeded(read: ManifestReader, t0: Tree, files: seq<GeneratedFile>, stale: seq<string>)
    requires Completes(read, t0, files, stale) && RecoversEverywhere(read, t0, files, stale)
    ensures Recoverable(read, t0, files)
  {
    StartIsResumable(read, t0, files, stale);
    RepeatsExact(read, t0, files, stale);
    forall f <- files
      ensures SafeFor(files, f, DeclaredBy(read, t0, files).value.0, DeclaredBy(read, t0, files).value.1)
    {
      FileIsSafe(read, t0, files, stale, f);
    }
    SafeForEach(files, t0.dirs, DeclaredBy(read, t0, files));
  }

  /**
   Crash recovery: a run can be stopped after any step, and run again to the end it would have
   had undisturbed, if and only if it is recoverable.
   */
  lemma RecoveryExact(read: ManifestReader, t0: Tree, files: seq<GeneratedFile>, stale: seq<string>)
    requires Completes(read, t0, files, stale)
    ensures RecoversEverywhere(read, t0, files, stale) <==> Recoverable(read, t0, files)
  {
    if Recoverable(read, t0, files) {
      RepeatsExact(read, t0, files, stale);
      RecoversAllEarly(read, t0, files, stale);
      EarlyAndLast(read, t0, files, Script(stale, files));
    }
    if RecoversEverywhere(read, t0, files, stale) { RecoverableNeeded(read, t0, files, stale); }
  }
}
