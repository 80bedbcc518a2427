/**
 The generator against its checker.
 */
module ClientCheck {
  import opened Wrappers
  import opened Collections
  import opened Paths
  import opened ClientTree
  import opened ClientSync

  // ---------------------------------------------------------------- write, then check

  /** What `check_client_project` accepts. */
  ghost predicate Clean(t: Tree, files: seq<GeneratedFile>) {
    && ValidFiles(files)
    && [] !in t.files
    && |t.files| <= MAX_FILES
    && (forall f {:trigger ReadExpected(t, f)} | f in files :: ReadExpected(t, f) == Same)
    && forall p <- t.files.Keys :: Expects(files, Join(p))
  }

  // ---------------------------------------------------------------- drift

  /** Every difference between the project and the tree. */
  ghost function AllDrift(t: Tree, files: seq<GeneratedFile>): set<Drift> {
    ExpectedDrift(t, files) + UnexpectedDrift(t, files)
  }

  ghost function ExpectedDrift(t: Tree, files: seq<GeneratedFile>): set<Drift> {
    set f <- files | ReadExpected(t, f).Differs? :: ReadExpected(t, f).drift
  }

  ghost function UnexpectedDrift(t: Tree, files: seq<GeneratedFile>): set<Drift> {
    set p <- t.files.Keys | !Expects(files, Join(p)) :: Unexpected(Join(p))
  }

  /** A file differs exactly when it is readable text other than the project's, or is not there. */
  ghost predicate DriftOf(t: Tree, files: seq<GeneratedFile>, d: Drift) {
    match d
    case Changed(path) =>
      exists f <- files :: f.path == path && Names(path) in t.files && !DirSpelling(path)
                           && t.files[Names(path)].Text? && t.files[Names(path)].text != f.contents
    case Missing(path) =>
      Expects(files, path) && Names(path) !in t.files && Names(path) !in t.dirs && !PrefixIsFile(t, Names(path))
    case Unexpected(path) =>
      !Expects(files, path) && exists p <- t.files.Keys :: Join(p) == path
  }

  lemma {:induction false} NoFileAbove(t: Tree, p: Path)
    requires WellFormed(t) && p in t.files
    ensures !PrefixIsFile(t, p) && p !in t.dirs
  {
    forall i | 0 <= i < |p| ensures p[..i] !in t.files { AncestorsAreDirs(t, p, i); }
  }

  lemma ReadingMeaning(t: Tree, f: GeneratedFile)
    requires WellFormed(t)
    ensures var r, p := ReadExpected(t, f), Names(f.path);
            && (r == Differs(Changed(f.path)) <==>
                p in t.files && !DirSpelling(f.path) && t.files[p].Text? && t.files[p].text != f.contents)
            && (r == Differs(Missing(f.path)) <==> p !in t.files && p !in t.dirs && !PrefixIsFile(t, p))
            && (r.Differs? ==> r.drift == Changed(f.path) || r.drift == Missing(f.path))
  {
    if Names(f.path) in t.files { NoFileAbove(t, Names(f.path)); }
  }

  /** The reported drift is every changed, missing and unexpected file, and nothing else. */
  lemma DriftMeaning(t: Tree, files: seq<GeneratedFile>, d: Drift)
    requires WellFormed(t)
    ensures d in AllDrift(t, files) <==> DriftOf(t, files, d)
  {
    if d in ExpectedDrift(t, files) {
      var f :| f in files && ReadExpected(t, f) == Differs(d);
      ReadingMeaning(t, f);
    }
    if DriftOf(t, files, d) && !d.Unexpected? {
      var f :| f in files && f.path == d.path
               && (d.Changed? ==> Names(d.path) in t.files && t.files[Names(d.path)].Text?
                                  && t.files[Names(d.path)].text != f.contents);
      ReadingMeaning(t, f);
      assert ReadExpected(t, f) == Differs(d);
    }
  }

  /** Every path's portable spelling is itself a project file, with the same contents. */
  ghost predicate Coherent(files: seq<GeneratedFile>) {
    forall f {:trigger Portable(f)} | f in files :: Portable(f) in files
  }

  function Portable(f: GeneratedFile): GeneratedFile {
    GeneratedFile(Join(Names(f.path)), f.contents)
  }

  lemma {:induction false} KeysCount(files: seq<GeneratedFile>)
    ensures |Keys(files)| <= |files|
  {
    if files != [] {
      DirsCons(files);
      KeysCount(files[1..]);
    }
  }

  lemma {:induction false} UniqueFile(files: seq<GeneratedFile>, f: GeneratedFile, g: GeneratedFile)
    requires ValidFiles(files) && f in files && g in files && f.path == g.path
    ensures f == g
  {
  }

  /**
   After a completed write the checker accepts exactly the coherent projects. A project with
   the single path `a//b` is written and then reported as drifted, so the promise that the
   generator and `--check` agree needs this condition and no more.
   */
  lemma {:induction false} CheckAfterWrite(read: ManifestReader, t: Tree, files: seq<GeneratedFile>)
    requires WellFormed(t) && Plan(read, t, files).Some?
    requires Run(t, Script(Plan(read, t, files).value, files)).ok
    ensures Clean(Run(t, Script(Plan(read, t, files).value, files)).tree, files) <==> Coherent(files)
  {
    RunConverges(read, t, files);
    CleanIffCoherent(Tree(Final(files), t.dirs + Dirs(files)), files);
  }

  lemma {:induction false} DoubledSlashSegments(a: string, b: string)
    requires ValidName(a) && ValidName(b)
    ensures Segments(a + "/" + ("/" + b)) == [a, "", b]
  {
    SegmentsPrefix(a, "/" + b);
    SegmentsPrefix("", b);
    SegmentsPrefix(b, "");
    assert "" + "/" + b == "/" + b;
  }

  lemma {:induction false} EmptySegmentVanishes(a: string, b: string)
    requires ValidName(a) && ValidName(b)
    ensures OfSegments([a, "", b]) == [Normal(a), Normal(b)]
  {
    assert [a, "", b][1..] == ["", b] && ["", b][1..] == [b] && [b][1..] == [];
    assert OfSegments([b]) == [Normal(b)] && OfSegments(["", b]) == [Normal(b)];
  }

  lemma {:induction false} DoubledSlash(a: string, b: string, path: string)
    requires ValidName(a) && ValidName(b) && path == a + "/" + ("/" + b)
    ensures Names(path) == [a, b] && Components(path) == [Normal(a), Normal(b)] && AllNormal(Components(path))
    ensures !DirSpelling(path) && |Join([a, b])| < |path|
  {
    DoubledSlashSegments(a, b);
    EmptySegmentVanishes(a, b);
    NamesOfTwo(a, b);
    assert path[0] == a[0];
    assert Components(path) == [Normal(a), Normal(b)];
    assert [a, b][1..] == [b];
  }

  lemma NamesOfTwo(a: string, b: string)
    ensures NamesOf([Normal(a), Normal(b)]) == [a, b]
  {
    assert [Normal(a), Normal(b)][1..] == [Normal(b)] && [Normal(b)][1..] == [];
    assert NamesOf([Normal(b)]) == [b] + NamesOf([]) == [b];
  }

  /** For any two names, a project that spells its path with a doubled slash is written and then found drifted. */
  lemma {:induction false} DoubledSlashDrifts(
    read: ManifestReader, a: string, b: string, contents: string, t: Tree, files: seq<GeneratedFile>)
    requires ValidName(a) && ValidName(b) && t == Tree(map[], {})
    requires files == [GeneratedFile(a + "/" + ("/" + b), contents)]
    ensures WellFormed(t) && Plan(read, t, files) == Some([]) && Run(t, Script([], files)).ok
    ensures !Clean(Run(t, Script([], files)).tree, files)
  {
    var f := files[0];
    DoubledSlash(a, b, f.path);
    EmptyPlan(read, t, files);
    SingleIsWritable(files);
    RunCompletes(read, t, files);
    CheckAfterWrite(read, t, files);
    assert f in files && Portable(f) !in files;
  }

  lemma {:induction false} SingleIsWritable(files: seq<GeneratedFile>)
    requires |files| == 1 && Names(files[0].path) != [] && !DirSpelling(files[0].path)
    ensures Writable(files)
  {
    assert forall f <- files :: f == files[0];
  }

  lemma {:induction false} CleanIffCoherent(done: Tree, files: seq<GeneratedFile>)
    requires WellFormed(done) && done.files == Final(files) && ValidFiles(files) && Writable(files)
    ensures Clean(done, files) <==> Coherent(files)
  {
    FinalDomain(files);
    if Clean(done, files) {
      forall f | f in files ensures Portable(f) in files {
        assert CanOpen(f) && Names(f.path) in done.files;
        SpelledOut(done, files, f);
      }
    }
    if Coherent(files) {
      CoherentIsClean(done, files);
    }
  }

  lemma {:induction false} CoherentIsClean(done: Tree, files: seq<GeneratedFile>)
    requires WellFormed(done) && done.files == Final(files) && done.files.Keys == Keys(files)
    requires ValidFiles(files) && Writable(files) && Coherent(files)
    ensures Clean(done, files)
  {
    KeysCount(files);
    assert |done.files| == |done.files.Keys|;
    assert CanOpen(files[0]);
    RootIsDir(done, Names(files[0].path));
    forall f | f in files ensures ReadExpected(done, f) == Same && Expects(files, Join(Names(f.path))) {
      CoherentReads(files, f);
      assert CanOpen(f);
      ReadsSame(done, f);
      PortableIsExpected(files, f);
    }
  }

  lemma {:induction false} ReadsSame(t: Tree, f: GeneratedFile)
    requires WellFormed(t) && !DirSpelling(f.path)
    requires Names(f.path) in t.files && t.files[Names(f.path)] == Text(f.contents)
    ensures ReadExpected(t, f) == Same
  {
    NoFileAbove(t, Names(f.path));
  }

  lemma {:induction false} PortableIsExpected(files: seq<GeneratedFile>, f: GeneratedFile)
    requires Coherent(files) && f in files
    ensures Expects(files, Join(Names(f.path)))
  {
    assert Portable(f) in files;
  }

  lemma {:induction false} SpelledOut(t: Tree, files: seq<GeneratedFile>, f: GeneratedFile)
    requires Clean(t, files) && f in files && Names(f.path) in t.files && Names(f.path) != []
    ensures Portable(f) in files
  {
    var p := Names(f.path);
    assert Expects(files, Join(p));
    var k :| 0 <= k < |files| && files[k].path == Join(p);
    NamesValid(f.path);
    JoinNames(p);
    assert ReadExpected(t, f) == Same && ReadExpected(t, files[k]) == Same;
  }

  lemma {:induction false} CoherentReads(files: seq<GeneratedFile>, f: GeneratedFile)
    requires ValidFiles(files) && Coherent(files) && f in files
    ensures Names(f.path) in Final(files) && Final(files)[Names(f.path)] == Text(f.contents)
  {
    var order, p := WriteOrder(files), Names(f.path);
    SameFiles(order, files);
    WriteAllSource(map[], order, p);
    var k :| 0 <= k < |order| && Names(order[k].path) == p && Final(files)[p] == Text(order[k].contents);
    assert order[k] in files;
    UniqueFile(files, Portable(f), Portable(order[k]));
  }

  lemma {:induction false} EmptyPlan(read: ManifestReader, t: Tree, files: seq<GeneratedFile>)
    requires t == Tree(map[], {}) && ValidFiles(files)
    ensures WellFormed(t) && Plan(read, t, files) == Some([])
  {
  }
}
