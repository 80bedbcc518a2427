/**
 What every run of the client generator keeps: the file-tree invariant, ownership of what it
 deletes, and the one file map that every completed run ends in.
 */
module ClientSync {
  import opened Wrappers
  import opened Collections
  import opened Paths
  import opened ClientTree

  // ---------------------------------------------------------------- running steps

  lemma {:induction false} ApplyKeepsWellFormed(t: Tree, s: Step)
    requires WellFormed(t) && (s.MakeDir? ==> ValidNames(s.dir))
    ensures Apply(t, s).Some? ==> WellFormed(Apply(t, s).value)
  {
    match s
    case MakeDir(d) =>
    case Remove(p) =>
    case Write(f) => NamesValid(f.path);
  }

  lemma {:induction false} RunConcat(t: Tree, a: seq<Step>, b: seq<Step>)
    ensures Run(t, a + b) == if Run(t, a).ok then Run(Run(t, a).tree, b) else Run(t, a)
    decreases a
  {
    if a == [] {
      assert a + b == b;
    } else {
      assert (a + b)[1..] == a[1..] + b;
      match Apply(t, a[0])
      case None =>
      case Some(next) => RunConcat(next, a[1..], b);
    }
  }

  /** A file's ancestors are all directories. */
  lemma {:induction false} AncestorsAreDirs(t: Tree, p: Path, i: nat)
    requires WellFormed(t) && (p in t.files || p in t.dirs) && i < |p|
    ensures p[..i] in t.dirs
    decreases |p|
  {
    assert Placed(t, p);
    if i < |p| - 1 {
      AncestorsAreDirs(t, Parent(p), i);
      assert Parent(p)[..i] == p[..i];
    }
  }

  ghost function StrictPrefixes(p: Path, i: nat): set<Path> {
    set j | i <= j < |p| :: p[..j]
  }

  lemma {:induction false} MakeDirsOutcome(t: Tree, p: Path, i: nat)
    requires i <= |p|
    ensures var r := Run(t, MakeDirs(p, i));
            r.ok ==> r.tree == Tree(t.files, t.dirs + StrictPrefixes(p, i))
    ensures (forall j | i <= j < |p| :: p[..j] !in t.files) && (i == 0 || p[..i - 1] in t.dirs)
            ==> Run(t, MakeDirs(p, i)).ok
    decreases |p| - i
  {
    if i < |p| {
      assert StrictPrefixes(p, i) == {p[..i]} + StrictPrefixes(p, i + 1);
      if i > 0 {
        assert Parent(p[..i]) == p[..i - 1];
      }
      match Apply(t, MakeDir(p[..i]))
      case None =>
      case Some(next) =>
        MakeDirsOutcome(next, p, i + 1);
        assert next.dirs + StrictPrefixes(p, i + 1) == t.dirs + StrictPrefixes(p, i);
    } else {
      assert t.dirs + StrictPrefixes(p, i) == t.dirs;
    }
  }

  ghost function Set<T>(xs: seq<T>): set<T> {
    set x | x in xs
  }

  /** The deletions complete exactly when they name different existing files. */
  lemma {:induction false} RemovesOutcome(t: Tree, places: seq<Path>)
    ensures var r := Run(t, Removes(places));
            && (r.ok <==> Set(places) <= t.files.Keys && Distinct(places))
            && (r.ok ==> r.tree == t.(files := t.files - Set(places)))
    decreases places
  {
    if places == [] {
      assert t.files - Set(places) == t.files;
    } else {
      var head, rest := places[0], places[1..];
      assert places == [head] + rest;
      assert Set(places) == {head} + Set(rest);
      assert Removes(places)[1..] == Removes(rest);
      match Apply(t, Remove(head))
      case None =>
      case Some(next) =>
        RemovesOutcome(next, rest);
        assert next.files - Set(rest) == t.files - Set(places);
    }
  }

  // ---------------------------------------------------------------- what the writes leave

  ghost function Keys(files: seq<GeneratedFile>): set<Path> {
    set f | f in files :: Names(f.path)
  }

  ghost function Dirs(files: seq<GeneratedFile>): set<Path> {
    set f, j | f in files && 0 <= j < |Names(f.path)| :: Names(f.path)[..j]
  }

  /** The files of a project over an earlier file map, later writes winning. */
  function WriteAll(m: map<Path, Contents>, files: seq<GeneratedFile>): map<Path, Contents>
    decreases files
  {
    if files == [] then m
    else WriteAll(m[Names(files[0].path) := Text(files[0].contents)], files[1..])
  }

  ghost predicate Apart(f: GeneratedFile, g: GeneratedFile) {
    Names(f.path) !in StrictPrefixes(Names(g.path), 0)
  }

  /** Every path can be opened for writing and no path runs through another one. */
  ghost predicate Writable(files: seq<GeneratedFile>) {
    && Openable(files)
    && (forall f, g | f in files && g in files :: Apart(f, g))
  }

  ghost predicate FitsAt(t: Tree, f: GeneratedFile) {
    Names(f.path) !in t.dirs && StrictPrefixes(Names(f.path), 0) !! t.files.Keys
  }

  ghost predicate Fits(t: Tree, files: seq<GeneratedFile>) {
    forall f <- files :: FitsAt(t, f)
  }

  lemma {:induction false} DirsCons(files: seq<GeneratedFile>)
    requires files != []
    ensures Dirs(files) == StrictPrefixes(Names(files[0].path), 0) + Dirs(files[1..])
    ensures Keys(files) == {Names(files[0].path)} + Keys(files[1..])
  {
    assert files == [files[0]] + files[1..];
  }

  lemma {:induction false} WriteOne(t: Tree, f: GeneratedFile)
    ensures var r := Run(t, MakeDirs(Names(f.path), 0) + [Write(f)]);
            r.ok ==>
              && CanOpen(f)
              && r.tree == Tree(t.files[Names(f.path) := Text(f.contents)], t.dirs + StrictPrefixes(Names(f.path), 0))
    ensures CanOpen(f) && FitsAt(t, f)
            ==> Run(t, MakeDirs(Names(f.path), 0) + [Write(f)]).ok
  {
    var p := Names(f.path);
    MakeDirsOutcome(t, p, 0);
    RunConcat(t, MakeDirs(p, 0), [Write(f)]);
    var made := Run(t, MakeDirs(p, 0));
    if made.ok {
      assert Run(made.tree, [Write(f)]) ==
             match Apply(made.tree, Write(f)) { case None => Ran(made.tree, false) case Some(n) => Run(n, []) };
    }
    if FitsAt(t, f) && p != [] {
      forall j | 0 <= j < |p| ensures p[..j] !in t.files {
        assert p[..j] in StrictPrefixes(p, 0);
      }
      assert Parent(p) in StrictPrefixes(p, 0);
      assert p !in StrictPrefixes(p, 0);
    }
  }

  lemma {:induction false} WritesCons(t: Tree, files: seq<GeneratedFile>)
    requires files != []
    ensures var first := Run(t, MakeDirs(Names(files[0].path), 0) + [Write(files[0])]);
            Run(t, Writes(files)) == if first.ok then Run(first.tree, Writes(files[1..])) else first
  {
    RunConcat(t, MakeDirs(Names(files[0].path), 0) + [Write(files[0])], Writes(files[1..]));
  }

  ghost predicate CanOpen(f: GeneratedFile) {
    Names(f.path) != [] && !DirSpelling(f.path)
  }

  ghost predicate Openable(files: seq<GeneratedFile>) {
    forall f <- files :: CanOpen(f)
  }

  lemma {:induction false} WriteAllStep(t: Tree, files: seq<GeneratedFile>, next: Tree)
    requires files != []
    requires var f := files[0];
             next == Tree(t.files[Names(f.path) := Text(f.contents)], t.dirs + StrictPrefixes(Names(f.path), 0))
    ensures WriteAll(next.files, files[1..]) == WriteAll(t.files, files)
    ensures next.dirs + Dirs(files[1..]) == t.dirs + Dirs(files)
  {
    DirsCons(files);
  }

  /** A completed write phase leaves the project over the old files. */
  lemma {:induction false} WritesOutcome(t: Tree, files: seq<GeneratedFile>)
    ensures var r := Run(t, Writes(files));
            r.ok ==> r.tree == Tree(WriteAll(t.files, files), t.dirs + Dirs(files)) && Openable(files)
    decreases files
  {
    if files == [] {
      assert t.dirs + Dirs(files) == t.dirs;
    } else {
      WritesCons(t, files);
      WriteOne(t, files[0]);
      var first := Run(t, MakeDirs(Names(files[0].path), 0) + [Write(files[0])]);
      if first.ok {
        WritesOutcome(first.tree, files[1..]);
        WriteAllStep(t, files, first.tree);
        assert files == [files[0]] + files[1..];
      }
    }
  }

  /** Writes that fit the tree and each other complete. */
  lemma {:induction false} WritesComplete(t: Tree, files: seq<GeneratedFile>)
    requires Fits(t, files) && Writable(files)
    ensures Run(t, Writes(files)).ok
    decreases files
  {
    if files != [] {
      var rest := files[1..];
      WritesCons(t, files);
      WriteOne(t, files[0]);
      var next := Run(t, MakeDirs(Names(files[0].path), 0) + [Write(files[0])]).tree;
      forall f | f in rest ensures FitsAt(next, f) {
        assert f in files;
        assert Apart(f, files[0]) && Apart(files[0], f);
      }
      WritesComplete(next, rest);
    }
  }

  lemma {:induction false} WriteAllDomain(m: map<Path, Contents>, files: seq<GeneratedFile>)
    ensures WriteAll(m, files).Keys == m.Keys + Keys(files)
    decreases files
  {
    if files != [] {
      DirsCons(files);
      WriteAllDomain(m[Names(files[0].path) := Text(files[0].contents)], files[1..]);
    }
  }

  /** Only the places a project does not name show the map it was written over. */
  lemma {:induction false} WriteAllLast(m: map<Path, Contents>, n: map<Path, Contents>, files: seq<GeneratedFile>)
    requires forall p | p in m && p !in Keys(files) :: p in n && m[p] == n[p]
    requires forall p | p in n && p !in Keys(files) :: p in m
    ensures WriteAll(m, files) == WriteAll(n, files)
    decreases files
  {
    if files == [] {
      assert m == n;
    } else {
      DirsCons(files);
      var p, c := Names(files[0].path), Text(files[0].contents);
      WriteAllLast(m[p := c], n[p := c], files[1..]);
    }
  }

  lemma WriteAllKeys(m: map<Path, Contents>, files: seq<GeneratedFile>)
    ensures WriteAll(m, files).Keys == m.Keys + Keys(files)
    ensures m.Keys <= Keys(files) ==> WriteAll(m, files) == WriteAll(map[], files)
  {
    WriteAllDomain(m, files);
    if m.Keys <= Keys(files) { WriteAllLast(m, map[], files); }
  }

  /** What is found at a written place is the text of a project file that names it. */
  lemma {:induction false} WriteAllSource(m: map<Path, Contents>, files: seq<GeneratedFile>, p: Path)
    requires p in Keys(files)
    ensures p in WriteAll(m, files)
    ensures exists i | 0 <= i < |files| :: Names(files[i].path) == p && WriteAll(m, files)[p] == Text(files[i].contents)
    decreases files
  {
    WriteAllKeys(m, files);
    var q, c, rest := Names(files[0].path), Text(files[0].contents), files[1..];
    DirsCons(files);
    if p in Keys(rest) {
      WriteAllSource(m[q := c], rest, p);
      var i :| 0 <= i < |rest| && Names(rest[i].path) == p && WriteAll(m[q := c], rest)[p] == Text(rest[i].contents);
      assert files[i + 1] == rest[i];
    } else {
      WriteAllKept(m[q := c], rest, p);
    }
  }

  lemma {:induction false} WriteAllKept(m: map<Path, Contents>, files: seq<GeneratedFile>, p: Path)
    requires p in m && p !in Keys(files)
    ensures p in WriteAll(m, files) && WriteAll(m, files)[p] == m[p]
    decreases files
  {
    if files != [] {
      DirsCons(files);
      WriteAllKept(m[Names(files[0].path) := Text(files[0].contents)], files[1..], p);
    }
  }

  lemma {:induction false} SameFiles(a: seq<GeneratedFile>, b: seq<GeneratedFile>)
    requires multiset(a) == multiset(b)
    ensures Keys(a) == Keys(b) && Dirs(a) == Dirs(b)
    ensures forall f :: f in a <==> f in b
  {
    forall f ensures f in a <==> f in b { assert f in a <==> f in multiset(a); }
  }

  // ---------------------------------------------------------------- what validation establishes

  lemma {:induction false} RootIsDir(t: Tree, p: Path)
    requires WellFormed(t) && (p in t.dirs || (p in t.files && p != []))
    ensures [] in t.dirs
  {
    if p != [] {
      AncestorsAreDirs(t, p, 0);
      assert p[..0] == [];
    }
  }

  lemma {:induction false} NothingBelow(t: Tree, p: Path, i: nat, j: nat)
    requires WellFormed(t) && i < j <= |p| && p[..i] !in t.dirs
    ensures p[..j] !in t.files && p[..j] !in t.dirs
  {
    assert p[..j][..i] == p[..i];
    if p[..j] in t.files || p[..j] in t.dirs {
      AncestorsAreDirs(t, p[..j], i);
    }
  }

  /** No proper ancestor of `p` below its first `i` components is a file. */
  ghost predicate FreeBelow(t: Tree, p: Path, i: nat) {
    forall j | i < j < |p| :: p[..j] !in t.files
  }

  lemma {:induction false} FreeBelowStep(t: Tree, p: Path, i: nat)
    requires i + 1 < |p|
    ensures FreeBelow(t, p, i) <==> p[..i + 1] !in t.files && FreeBelow(t, p, i + 1)
  {
  }

  /** From a directory on, the loop admits exactly the paths free of files before their end. */
  lemma {:induction false} InspectTargetMeaning(t: Tree, p: Path, i: nat)
    requires WellFormed(t) && i <= |p| && p[..i] in t.dirs
    ensures InspectTarget(t, p, i) <==> (i < |p| ==> p !in t.dirs) && FreeBelow(t, p, i)
    decreases |p| - i
  {
    if i < |p| {
      assert p[..|p|] == p;
      if i + 1 < |p| { FreeBelowStep(t, p, i); }
      if p[..i + 1] in t.dirs {
        if i + 1 < |p| { InspectTargetMeaning(t, p, i + 1); }
      } else if i + 1 < |p| {
        NothingBelow(t, p, i + 1, |p|);
        if p[..i + 1] !in t.files {
          forall j | i + 1 < j < |p| ensures p[..j] !in t.files { NothingBelow(t, p, i + 1, j); }
        }
      }
    }
  }

  /** The component loop admits only targets that can be written here. */
  lemma {:induction false} TargetsFit(t: Tree, files: seq<GeneratedFile>)
    requires WellFormed(t) && TargetsOk(t, files)
    requires Openable(files)
    ensures Fits(t, files)
  {
    forall f | f in files ensures FitsAt(t, f) {
      var p := Names(f.path);
      if [] in t.dirs {
        assert p[..0] == [];
        InspectTargetMeaning(t, p, 0);
      } else {
        if p in t.dirs { RootIsDir(t, p); }
        forall q ensures q !in t.files { if q in t.files { RootIsDir(t, q); } }
      }
    }
  }

  lemma {:induction false} CandidatesMeaning(operations: seq<Option<string>>, files: seq<GeneratedFile>)
    ensures Candidates(operations, files).Some? ==>
              var c := Candidates(operations, files).value;
              && Distinct(c)
              && forall x <- c :: Some(x) in operations && !Expects(files, x) && ValidModulePath(x)
    decreases operations
  {
    if operations != [] {
      var rest, last := operations[..|operations| - 1], operations[|operations| - 1];
      CandidatesMeaning(rest, files);
      assert operations == rest + [last];
      if Candidates(operations, files).Some? {
        InsertUniqueMeaning(last.value, Candidates(rest, files).value);
      }
    }
  }

  ghost predicate ValidOperation(operation: Option<string>) { operation.Some? && ValidModulePath(operation.value) }

  lemma {:induction false} CandidatesStep(rest: seq<Option<string>>, last: Option<string>, files: seq<GeneratedFile>)
    ensures var before, after := Candidates(rest, files), Candidates(rest + [last], files);
            after == if before.None? || !ValidOperation(last) then None
                     else if Expects(files, last.value) then before
                     else Some(InsertUnique(last.value, before.value))
  {
    var operations := rest + [last];
    assert operations[..|operations| - 1] == rest && operations[|operations| - 1] == last;
  }

  /** The manifest's operations are refused exactly when one of them has no valid module path. */
  lemma {:induction false} CandidatesAccepted(operations: seq<Option<string>>, files: seq<GeneratedFile>)
    ensures Candidates(operations, files).Some? <==> forall op <- operations :: ValidOperation(op)
    decreases operations
  {
    if operations != [] {
      var rest, last := operations[..|operations| - 1], operations[|operations| - 1];
      assert operations == rest + [last];
      CandidatesAccepted(rest, files);
      CandidatesStep(rest, last, files);
    }
  }

  /** The stale candidates are exactly the listed module paths that the project no longer produces. */
  lemma {:induction false} CandidatesExact(operations: seq<Option<string>>, files: seq<GeneratedFile>, x: string)
    requires Candidates(operations, files).Some?
    ensures x in Candidates(operations, files).value <==> Some(x) in operations && !Expects(files, x)
    decreases operations
  {
    if operations != [] {
      var rest, last := operations[..|operations| - 1], operations[|operations| - 1];
      assert operations == rest + [last];
      CandidatesStep(rest, last, files);
      CandidatesExact(rest, files, x);
      CandidatesMeaning(rest, files);
      InsertUniqueMeaning(last.value, Candidates(rest, files).value);
    }
  }

  lemma {:induction false} InsertUniqueMeaning(x: string, xs: seq<string>)
    requires Distinct(xs)
    ensures Distinct(InsertUnique(x, xs))
    ensures forall y :: y in InsertUnique(x, xs) <==> y == x || y in xs
  {
    var r := InsertUnique(x, xs);
    if x !in xs {
      assert multiset(r) == multiset(xs) + multiset{x};
      forall y ensures y in r <==> y == x || y in xs {
        assert y in r <==> y in multiset(r);
        assert y in xs <==> y in multiset(xs);
      }
      DistinctCounts(xs);
      forall y ensures multiset(r)[y] <= 1 {
        assert y in xs <==> y in multiset(xs);
      }
      CountsDistinct(r);
    }
  }

  lemma {:induction false} DistinctCounts<T>(xs: seq<T>)
    requires Distinct(xs)
    ensures forall y :: multiset(xs)[y] <= 1
  {
    DistinctParts(xs);
    if xs != [] {
      DistinctCounts(xs[1..]);
      assert xs == [xs[0]] + xs[1..];
      assert xs[0] in xs[1..] <==> xs[0] in multiset(xs[1..]);
    }
  }

  lemma {:induction false} CountsDistinct<T>(xs: seq<T>)
    requires forall y :: multiset(xs)[y] <= 1
    ensures Distinct(xs)
  {
    DistinctParts(xs);
    if xs != [] {
      assert xs == [xs[0]] + xs[1..];
      assert xs[0] in xs[1..] <==> xs[0] in multiset(xs[1..]);
      forall y ensures multiset(xs[1..])[y] <= 1 {
        assert multiset(xs)[y] >= multiset(xs[1..])[y];
      }
      CountsDistinct(xs[1..]);
      assert multiset(xs)[xs[0]] == 1 + multiset(xs[1..])[xs[0]];
    }
  }

  lemma {:induction false} DeclaredMeaning(read: ManifestReader, source: string, files: seq<GeneratedFile>)
    requires Declared(read, source, files).Some?
    ensures var (version, c) := Declared(read, source, files).value;
            && read(source).Provenance? && read(source).version == Some(version) && read(source).operations.Some?
            && Distinct(c)
            && forall x <- c ::
                 && !Expects(files, x)
                 && Names(x) != [] && Names(x)[0] != MANIFEST
                 && (Some(x) in read(source).operations.value || (version == 1 && x == ROUTES))
  {
    var operations := read(source).operations.value;
    CandidatesMeaning(operations, files);
    var stale := Candidates(operations, files).value;
    InsertUniqueMeaning(ROUTES, stale);
    var (version, c) := Declared(read, source, files).value;
    forall x | x in c ensures Names(x) != [] && Names(x)[0] != MANIFEST {
      if x in stale {
        ModulePathNames(x);
      } else {
        assert x == ROUTES == Join([ROUTES]);
        JoinNames([ROUTES]);
      }
    }
  }

  lemma {:induction false} ModulePathNames(x: string)
    requires ValidModulePath(x)
    ensures |Names(x)| == 2 && Names(x)[0] == "operations"
  {
    var c := Components(x);
    assert OfSegments(Segments(x)) == c;
    assert NamesOf(c) == [c[0].name] + NamesOf(c[1..]);
    assert NamesOf(c[1..]) == [c[1].name] + NamesOf(c[2..]);
  }

  lemma {:induction false} OwnedAccepted(t: Tree, version: nat, candidates: seq<string>)
    ensures Owned(t, version, candidates).Some? <==> forall x <- candidates :: Inspect(t, version, x) != Blocked
    decreases candidates
  {
    if candidates != [] {
      assert candidates == [candidates[0]] + candidates[1..];
      OwnedAccepted(t, version, candidates[1..]);
    }
  }

  lemma OwnedFirst(t: Tree, version: nat, candidates: seq<string>)
    requires candidates != [] && Owned(t, version, candidates).Some?
    ensures var rest := Owned(t, version, candidates[1..]);
            && rest.Some? && Inspect(t, version, candidates[0]) != Blocked
            && Owned(t, version, candidates).value
            == (if Inspect(t, version, candidates[0]) == Deletable then [candidates[0]] else []) + rest.value
  {
  }

  lemma {:induction false} OwnedMember(t: Tree, version: nat, candidates: seq<string>, x: string)
    requires Owned(t, version, candidates).Some?
    ensures x in Owned(t, version, candidates).value <==> x in candidates && Inspect(t, version, x) == Deletable
    decreases candidates
  {
    if candidates != [] {
      var first, rest := candidates[0], Owned(t, version, candidates[1..]);
      assert x in candidates <==> x == first || x in candidates[1..] by {
        assert candidates == [first] + candidates[1..];
      }
      OwnedMember(t, version, candidates[1..], x);
      OwnedFirst(t, version, candidates);
    }
  }

  lemma {:induction false} OwnedDistinct(t: Tree, version: nat, candidates: seq<string>)
    requires Owned(t, version, candidates).Some? && Distinct(candidates)
    ensures Distinct(Owned(t, version, candidates).value)
    decreases candidates
  {
    if candidates != [] {
      var rest := candidates[1..];
      DistinctParts(candidates);
      OwnedDistinct(t, version, rest);
      OwnedMember(t, version, rest, candidates[0]);
      DistinctCons(candidates[0], Owned(t, version, rest).value);
    }
  }

  lemma OwnedMeaning(t: Tree, version: nat, candidates: seq<string>)
    ensures Owned(t, version, candidates).Some? <==> forall x <- candidates :: Inspect(t, version, x) != Blocked
    ensures Owned(t, version, candidates).Some? ==>
              var stale := Owned(t, version, candidates).value;
              && (forall x :: x in stale <==> x in candidates && Inspect(t, version, x) == Deletable)
              && (Distinct(candidates) ==> Distinct(stale))
  {
    OwnedAccepted(t, version, candidates);
    if Owned(t, version, candidates).Some? {
      forall x
        ensures x in Owned(t, version, candidates).value <==> x in candidates && Inspect(t, version, x) == Deletable
      {
        OwnedMember(t, version, candidates, x);
      }
      if Distinct(candidates) { OwnedDistinct(t, version, candidates); }
    }
  }

  /**
   Ownership: whatever a planned run deletes was named by the previous manifest (or is the
   version-one route plan), is not produced by the new project, and carries the marker.
   */
  lemma {:induction false} OnlyOwnedFilesAreDeleted(read: ManifestReader, t: Tree, files: seq<GeneratedFile>, x: string)
    requires Plan(read, t, files).Some? && x in Plan(read, t, files).value
    ensures [MANIFEST] in t.files && t.files[[MANIFEST]].Text?
    ensures var provenance := read(t.files[[MANIFEST]].text);
            && provenance.Provenance? && provenance.operations.Some?
            && (provenance.version == Some(1) || provenance.version == Some(2))
            && (Some(x) in provenance.operations.value || (provenance.version == Some(1) && x == ROUTES))
            && Names(x) in t.files && t.files[Names(x)].Text?
            && HasMarker(provenance.version.value, x, t.files[Names(x)].text)
    ensures !Expects(files, x) && Names(x) != [MANIFEST]
  {
    var source := t.files[[MANIFEST]].text;
    DeclaredMeaning(read, source, files);
    var (version, c) := Declared(read, source, files).value;
    OwnedMeaning(t, version, c);
  }

  /** The compiler's marker, as it opens every module the compiler writes, or the version-one route plan. */
  ghost predicate CarriesMarker(version: nat, path: string, text: string) {
    || "/** GENERATED by distributed client. Do not edit. */" <= text
    || (version == 1 && path == "routes.ts" && "/** GENERATED framework-neutral `@load` ownership plan. */" <= text)
  }

  /** A text of at most eight mebibytes that carries the marker. */
  ghost predicate OwnedText(version: nat, path: string, contents: Contents) {
    contents.Text? && Utf8Length(contents.text) <= 8_388_608 && CarriesMarker(version, path, contents.text)
  }

  /**
   What becomes of one declared module on a well-formed tree: it is deleted exactly when its
   place holds an owned text, passed over exactly when nothing is there or in the way, and
   refused otherwise.
   */
  lemma {:induction false} InspectExact(t: Tree, version: nat, x: string)
    requires WellFormed(t)
    ensures var p, v := Names(x), Inspect(t, version, x);
            && (v == Deletable <==> p in t.files && !DirSpelling(x) && OwnedText(version, x, t.files[p]))
            && (v == Absent <==> p !in t.files && p !in t.dirs && StrictPrefixes(p, 0) !! t.files.Keys)
  {
    var p := Names(x);
    if p in t.files {
      forall i | 0 <= i < |p| ensures p[..i] !in t.files { AncestorsAreDirs(t, p, i); }
    }
    if PrefixIsFile(t, p) {
      var i :| 0 <= i < |p| && p[..i] in t.files;
      assert p[..i] in StrictPrefixes(p, 0);
    }
  }

  /** Every file a planned run deletes is a text that opens with the compiler's marker. */
  lemma {:induction false} DeletedFilesAreMarked(read: ManifestReader, t: Tree, files: seq<GeneratedFile>, x: string)
    requires WellFormed(t) && Plan(read, t, files).Some? && x in Plan(read, t, files).value
    ensures [MANIFEST] in t.files && t.files[[MANIFEST]].Text? && Declared(read, t.files[[MANIFEST]].text, files).Some?
    ensures var (version, c) := Declared(read, t.files[[MANIFEST]].text, files).value;
            x in c && Names(x) in t.files && !DirSpelling(x) && OwnedText(version, x, t.files[Names(x)])
  {
    var (version, c) := Declared(read, t.files[[MANIFEST]].text, files).value;
    OwnedMember(t, version, c, x);
    InspectExact(t, version, x);
  }

  /** A declared module whose place holds anything else, a text without the marker above all, refuses the run. */
  lemma {:induction false} UnmarkedIsRefused(
    read: ManifestReader, t: Tree, files: seq<GeneratedFile>, version: nat, c: seq<string>, x: string)
    requires WellFormed(t) && [MANIFEST] in t.files && t.files[[MANIFEST]].Text?
    requires Declared(read, t.files[[MANIFEST]].text, files) == Some((version, c)) && x in c
    requires Names(x) in t.files && !OwnedText(version, x, t.files[Names(x)])
    ensures Plan(read, t, files).None?
  {
    InspectExact(t, version, x);
    OwnedAccepted(t, version, c);
  }

  // ---------------------------------------------------------------- whole runs

  /** The file map of a finished generation. */
  ghost function Final(files: seq<GeneratedFile>): map<Path, Contents> {
    WriteAll(map[], WriteOrder(files))
  }

  lemma FinalDomain(files: seq<GeneratedFile>)
    ensures Final(files).Keys == Keys(files)
  {
    SameFiles(WriteOrder(files), files);
    WriteAllDomain(map[], WriteOrder(files));
  }

  lemma {:induction false} SpellsMeaning(stale: seq<string>, p: Path)
    ensures Spells(stale, p) <==> p in PlacesOf(stale)
  {
    if Spells(stale, p) {
      var i :| 0 <= i < |stale| && Names(stale[i]) == p;
      assert PlacesOf(stale)[i] == p;
    }
  }

  lemma {:induction false} PlannedKeys(read: ManifestReader, t: Tree, files: seq<GeneratedFile>)
    requires WellFormed(t) && Plan(read, t, files).Some?
    ensures var stale := Set(PlacesOf(Plan(read, t, files).value));
            stale <= t.files.Keys && t.files.Keys - stale <= Keys(files)
  {
    var stale := Plan(read, t, files).value;
    forall p | p in PlacesOf(stale) ensures p in t.files {
      var i :| 0 <= i < |stale| && PlacesOf(stale)[i] == p;
      OnlyOwnedFilesAreDeleted(read, t, files, stale[i]);
    }
    forall p | p in t.files.Keys && p !in PlacesOf(stale) ensures p in Keys(files) {
      SpellsMeaning(stale, p);
      assert Placed(t, p) && p != [];
      JoinNames(p);
    }
  }

  lemma {:induction false} ScriptOutcome(t: Tree, stale: seq<string>, files: seq<GeneratedFile>)
    requires [] !in t.files
    ensures var places, order := PlacesOf(stale), WriteOrder(files);
            var removed := Tree(t.files - Set(places), t.dirs + {[]});
            var r, w := Run(t, Script(stale, files)), Run(removed, Writes(order));
            && (r.ok <==> Set(places) <= t.files.Keys && Distinct(places) && w.ok)
            && (r.ok ==> r == w)
  {
    var places, order := PlacesOf(stale), WriteOrder(files);
    var rooted := Apply(t, MakeDir([])).value;
    assert t.dirs + {[]} == rooted.dirs;
    var rest := Removes(places) + Writes(order);
    assert Script(stale, files) == [MakeDir([])] + rest;
    RunConcat(rooted, Removes(places), Writes(order));
    RemovesOutcome(rooted, places);
  }

  lemma ScriptConverges(t: Tree, stale: seq<string>, files: seq<GeneratedFile>)
    requires WellFormed(t) && [] !in t.files && files != [] && t.files.Keys - Set(PlacesOf(stale)) <= Keys(files)
    requires Run(t, Script(stale, files)).ok
    ensures var r := Run(t, Script(stale, files)).tree;
            r == Tree(Final(files), t.dirs + Dirs(files)) && WellFormed(r) && Writable(files)
  {
    ScriptOutcome(t, stale, files);
    RemovedWellFormed(t, Set(PlacesOf(stale)));
    FinishedWrites(Tree(t.files - Set(PlacesOf(stale)), t.dirs + {[]}), files);
    assert t.dirs + {[]} + Dirs(files) == t.dirs + Dirs(files);
  }

  /** Every completed run ends in the same file map, whatever tree it started from. */
  lemma {:induction false} RunConverges(read: ManifestReader, t: Tree, files: seq<GeneratedFile>)
    requires WellFormed(t) && Plan(read, t, files).Some?
    ensures var r := Run(t, Script(Plan(read, t, files).value, files));
            r.ok ==> r.tree == Tree(Final(files), t.dirs + Dirs(files)) && WellFormed(r.tree) && Writable(files)
  {
    var stale := Plan(read, t, files).value;
    if Run(t, Script(stale, files)).ok {
      PlannedKeys(read, t, files);
      ScriptConverges(t, stale, files);
    }
  }

  lemma {:induction false} FinishedWrites(t: Tree, files: seq<GeneratedFile>)
    requires WellFormed(t) && files != [] && t.files.Keys <= Keys(files)
    requires Run(t, Writes(WriteOrder(files))).ok
    ensures var r := Run(t, Writes(WriteOrder(files))).tree;
            r == Tree(Final(files), t.dirs + Dirs(files)) && WellFormed(r)
    ensures Writable(files) && [] in Dirs(files)
  {
    var order := WriteOrder(files);
    var r := Run(t, Writes(order)).tree;
    SameFiles(order, files);
    WritesOutcome(t, order);
    WriteAllKeys(t.files, order);
    RunKeepsWellFormed(t, order);
    assert Openable(files);
    FinishedIsWritable(r, files);
    RootInDirs(files);
  }

  lemma {:induction false} RootInDirs(files: seq<GeneratedFile>)
    requires files != [] && Writable(files)
    ensures [] in Dirs(files)
  {
    assert files[0] in files && CanOpen(files[0]);
    assert Names(files[0].path)[..0] == [];
  }

  /**
   A run that passed validation fails half-way in exactly two cases: the project's paths run
   through each other (or cannot be opened), or the previous manifest names one place twice.
   */
  lemma {:induction false} RunCompletes(read: ManifestReader, t: Tree, files: seq<GeneratedFile>)
    requires WellFormed(t) && Plan(read, t, files).Some?
    ensures var stale := Plan(read, t, files).value;
            Run(t, Script(stale, files)).ok <==> Writable(files) && Distinct(PlacesOf(stale))
  {
    ScriptOutcome(t, Plan(read, t, files).value, files);
    RunConverges(read, t, files);
    if Writable(files) && Distinct(PlacesOf(Plan(read, t, files).value)) {
      PlannedKeys(read, t, files);
      WritesFit(t, Set(PlacesOf(Plan(read, t, files).value)), files);
    }
  }

  /** With the stale places removed, the writes of a project that passed the target check all succeed. */
  lemma {:induction false} WritesFit(t: Tree, places: set<Path>, files: seq<GeneratedFile>)
    requires WellFormed(t) && TargetsOk(t, files) && Writable(files)
    ensures Run(Tree(t.files - places, t.dirs + {[]}), Writes(WriteOrder(files))).ok
  {
    var order, removed := WriteOrder(files), Tree(t.files - places, t.dirs + {[]});
    SameFiles(files, order);
    TargetsFit(t, files);
    forall f | f in order ensures FitsAt(removed, f) {
      assert f in files && CanOpen(f);
    }
    WritesComplete(removed, order);
  }

  lemma {:induction false} RemovedWellFormed(t: Tree, places: set<Path>)
    requires WellFormed(t) && [] !in t.files
    ensures WellFormed(Tree(t.files - places, t.dirs + {[]}))
  {
    var removed := Tree(t.files - places, t.dirs + {[]});
    forall p | p in removed.files ensures Placed(removed, p) { assert Placed(t, p); }
    forall p | p in removed.dirs ensures Placed(removed, p) { assert p == [] || Placed(t, p); }
  }

  lemma {:induction false} MakeDirsAreValid(p: Path, i: nat)
    requires i <= |p| && ValidNames(p)
    ensures forall s <- MakeDirs(p, i) :: s.MakeDir? && ValidNames(s.dir) && s.dir in StrictPrefixes(p, 0)
    decreases |p| - i
  {
    if i < |p| { MakeDirsAreValid(p, i + 1); }
  }

  lemma {:induction false} WritesAreValid(files: seq<GeneratedFile>)
    ensures forall s <- Writes(files) ::
              || (s.MakeDir? && ValidNames(s.dir) && s.dir in Dirs(files))
              || (s.Write? && s.file in files)
  {
    if files != [] {
      NamesValid(files[0].path);
      MakeDirsAreValid(Names(files[0].path), 0);
      WritesAreValid(files[1..]);
      DirsCons(files);
    }
  }

  lemma {:induction false} RunStepsKeepsWellFormed(t: Tree, steps: seq<Step>)
    requires WellFormed(t) && forall s <- steps :: s.MakeDir? ==> ValidNames(s.dir)
    ensures WellFormed(Run(t, steps).tree)
    decreases steps
  {
    if steps != [] {
      ApplyKeepsWellFormed(t, steps[0]);
      match Apply(t, steps[0])
      case None =>
      case Some(next) => RunStepsKeepsWellFormed(next, steps[1..]);
    }
  }

  lemma {:induction false} RunKeepsWellFormed(t: Tree, files: seq<GeneratedFile>)
    requires WellFormed(t)
    ensures WellFormed(Run(t, Writes(files)).tree)
  {
    WritesAreValid(files);
    RunStepsKeepsWellFormed(t, Writes(files));
  }

  lemma {:induction false} FinishedIsWritable(t: Tree, files: seq<GeneratedFile>)
    requires WellFormed(t) && t.files.Keys == Keys(files)
    requires Openable(files)
    ensures Writable(files)
  {
    forall f, g | f in files && g in files ensures Apart(f, g) {
      forall k | 0 <= k < |Names(g.path)| ensures Names(g.path)[..k] in t.dirs {
        AncestorsAreDirs(t, Names(g.path), k);
      }
    }
  }
}
