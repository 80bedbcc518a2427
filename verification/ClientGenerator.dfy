/**
 The generator itself: an output directory that one run reads, deletes from and writes to.
 */
module ClientGenerator {
  import opened Wrappers
  import opened Collections
  import opened Paths
  import opened ClientTree
  import opened ClientSync
  import opened ClientCheck

  datatype Outcome = Refused | Failed | Written

  datatype CheckResult = Agrees | Drifted(drift: set<Drift>) | CannotCheck

  lemma {:induction false} CandidatesPropagate(operations: seq<Option<string>>, i: nat, files: seq<GeneratedFile>)
    requires i < |operations| && Candidates(operations[..i + 1], files).None?
    ensures Candidates(operations, files).None?
    decreases |operations|
  {
    if i + 1 < |operations| {
      var rest := operations[..|operations| - 1];
      assert rest[..i + 1] == operations[..i + 1];
      CandidatesPropagate(rest, i, files);
    } else {
      assert operations[..i + 1] == operations;
    }
  }

  lemma {:induction false} OwnedStep(t: Tree, version: nat, candidates: seq<string>, paths: seq<string>)
    requires candidates != []
    ensures var x, rest := candidates[0], Owned(t, version, candidates[1..]);
            Prepend(paths, Owned(t, version, candidates)) ==
            match Inspect(t, version, x)
            case Blocked => None
            case Absent => Prepend(paths, rest)
            case Deletable => Prepend(paths + [x], rest)
  {
    var x, rest := candidates[0], Owned(t, version, candidates[1..]);
    if rest.Some? { assert paths + ([x] + rest.value) == paths + [x] + rest.value; }
  }

  lemma NoDriftIsClean(t: Tree, files: seq<GeneratedFile>)
    requires ValidFiles(files) && [] !in t.files && |t.files| <= MAX_FILES
    ensures Clean(t, files) <==> AllDrift(t, files) == {} && forall f <- files :: ReadExpected(t, f) != Unreadable
  {
    forall f <- files ensures ReadExpected(t, f).Differs? ==> ReadExpected(t, f).drift in ExpectedDrift(t, files) {
    }
    forall p <- t.files.Keys ensures !Expects(files, Join(p)) ==> Unexpected(Join(p)) in UnexpectedDrift(t, files) {
    }
  }

  class OutputDirectory {
    var tree: Tree

    constructor (initial: Tree)
      ensures tree == initial
    {
      tree := initial;
    }

    /** One file-system call. */
    method Call(s: Step) returns (ok: bool)
      modifies this
      ensures ok == Apply(old(tree), s).Some?
      ensures tree == if ok then Apply(old(tree), s).value else old(tree)
    {
      var next := Apply(tree, s);
      ok := next.Some?;
      if ok { tree := next.value; }
    }

    /** `fs::create_dir_all(parent)` and `fs::write` for one generated file. */
    method WriteGenerated(f: GeneratedFile) returns (ok: bool)
      modifies this
      ensures Ran(tree, ok) == Run(old(tree), MakeDirs(Names(f.path), 0) + [Write(f)])
    {
      var p, i := Names(f.path), 0;
      ok := true;
      while i < |p| && ok
        invariant 0 <= i <= |p|
        invariant ok ==> Run(old(tree), MakeDirs(p, 0) + [Write(f)]) == Run(tree, MakeDirs(p, i) + [Write(f)])
        invariant !ok ==> Run(old(tree), MakeDirs(p, 0) + [Write(f)]) == Ran(tree, false)
      {
        assert MakeDirs(p, i) + [Write(f)] == [MakeDir(p[..i])] + (MakeDirs(p, i + 1) + [Write(f)]);
        ok := Call(MakeDir(p[..i]));
        i := i + 1;
      }
      if ok {
        assert MakeDirs(p, i) + [Write(f)] == [Write(f)];
        ok := Call(Write(f));
        assert ok ==> Run(tree, []) == Ran(tree, true);
      }
    }

    /** The deletion loop. */
    method RemoveStale(places: seq<Path>) returns (ok: bool)
      modifies this
      ensures Ran(tree, ok) == Run(old(tree), Removes(places))
    {
      var i := 0;
      ok := true;
      assert places[0..] == places;
      while i < |places| && ok
        invariant 0 <= i <= |places|
        invariant ok ==> Run(old(tree), Removes(places)) == Run(tree, Removes(places[i..]))
        invariant !ok ==> Run(old(tree), Removes(places)) == Ran(tree, false)
      {
        assert places[i..][1..] == places[i + 1..];
        ok := Call(Remove(places[i]));
        i := i + 1;
      }
    }

    /** The write loop, over files already in write order. */
    method WriteFiles(order: seq<GeneratedFile>) returns (ok: bool)
      modifies this
      ensures Ran(tree, ok) == Run(old(tree), Writes(order))
    {
      var i := 0;
      ok := true;
      assert order[0..] == order;
      while i < |order| && ok
        invariant 0 <= i <= |order|
        invariant ok ==> Run(old(tree), Writes(order)) == Run(tree, Writes(order[i..]))
        invariant !ok ==> Run(old(tree), Writes(order)) == Ran(tree, false)
      {
        assert order[i..][1..] == order[i + 1..];
        var f := order[i];
        RunConcat(tree, MakeDirs(Names(f.path), 0) + [Write(f)], Writes(order[i + 1..]));
        ok := WriteGenerated(f);
        i := i + 1;
      }
    }

    /** `stale_generated_client_files`: candidates from the previous manifest, then ownership. */
    method StaleGenerated(read: ManifestReader, files: seq<GeneratedFile>) returns (stale: Option<seq<string>>)
      ensures stale == StaleFiles(read, tree, files)
    {
      if [MANIFEST] in tree.dirs { return None; }
      if [MANIFEST] !in tree.files { return Some([]); }
      if tree.files[[MANIFEST]].Binary? { return None; }
      var source := tree.files[[MANIFEST]].text;
      if Utf8Length(source) > MAX_MANIFEST_BYTES { return None; }
      var provenance := read(source);
      if provenance.Malformed? || provenance.version.None? || provenance.operations.None?
         || (provenance.version.value != 1 && provenance.version.value != 2) { return None; }
      var version := provenance.version.value;
      var candidates := CandidateFiles(provenance.operations.value, files);
      if candidates.None? { return None; }
      if version == 1 && !Expects(files, ROUTES) {
        stale := OwnedFiles(version, InsertUnique(ROUTES, candidates.value));
      } else {
        stale := OwnedFiles(version, candidates.value);
      }
    }

    /** The loop over the operations of the previous manifest. */
    static method CandidateFiles(operations: seq<Option<string>>, files: seq<GeneratedFile>)
      returns (candidates: Option<seq<string>>)
      ensures candidates == Candidates(operations, files)
    {
      var stale, i := [], 0;
      while i < |operations|
        invariant 0 <= i <= |operations|
        invariant Candidates(operations[..i], files) == Some(stale)
      {
        assert operations[..i + 1][..i] == operations[..i];
        if operations[i].None? || !ValidModulePath(operations[i].value) {
          CandidatesPropagate(operations, i, files);
          return None;
        }
        if !Expects(files, operations[i].value) {
          stale := InsertUnique(operations[i].value, stale);
        }
        i := i + 1;
      }
      assert operations[..i] == operations;
      candidates := Some(stale);
    }

    /** The ownership loop over the candidates. */
    method OwnedFiles(version: nat, candidates: seq<string>) returns (stale: Option<seq<string>>)
      ensures stale == Owned(tree, version, candidates)
    {
      var t, paths, i := tree, [], 0;
      assert candidates[0..] == candidates;
      while i < |candidates|
        invariant 0 <= i <= |candidates|
        invariant Owned(t, version, candidates) == Prepend(paths, Owned(t, version, candidates[i..]))
      {
        var verdict := Inspect(t, version, candidates[i]);
        OwnedStep(t, version, candidates[i..], paths);
        assert candidates[i..][1..] == candidates[i + 1..];
        if verdict == Blocked { return None; }
        if verdict == Deletable { paths := paths + [candidates[i]]; }
        i := i + 1;
      }
      assert candidates[i..] == [] && paths + [] == paths;
      stale := Some(paths);
    }

    /**
     `write_client_project`: a refusal changes nothing; otherwise the tree is where the
     script of deletions and writes stopped.
     */
    method WriteClientProject(read: ManifestReader, files: seq<GeneratedFile>) returns (outcome: Outcome)
      requires WellFormed(tree)
      modifies this
      ensures outcome == Refused <==> Plan(read, old(tree), files).None?
      ensures outcome == Refused ==> tree == old(tree)
      ensures outcome != Refused ==>
                Ran(tree, outcome == Written) == Run(old(tree), Script(Plan(read, old(tree), files).value, files))
      ensures outcome == Written ==> tree == Tree(Final(files), old(tree).dirs + Dirs(files)) && WellFormed(tree)
      ensures outcome == Written ==> (Clean(tree, files) <==> Coherent(files))
    {
      ghost var start := tree;
      if !ValidFiles(files) || !TargetsOk(tree, files) { return Refused; }
      var owned := StaleGenerated(read, files);
      if owned.None? || !Converges(tree, files, owned.value) { return Refused; }
      var stale := owned.value;
      ghost var rest := Removes(PlacesOf(stale)) + Writes(WriteOrder(files));
      assert Script(stale, files) == [MakeDir([])] + rest;
      RunConverges(read, start, files);
      if Run(start, Script(stale, files)).ok { CheckAfterWrite(read, start, files); }
      var ok := Call(MakeDir([]));
      RunConcat(tree, Removes(PlacesOf(stale)), Writes(WriteOrder(files)));
      ok := RemoveStale(PlacesOf(stale));
      if ok {
        ok := WriteFiles(WriteOrder(files));
      }
      outcome := if ok then Written else Failed;
    }

    /**
     `check_client_project`, which only reads: it agrees exactly on a clean tree, and reports
     every difference otherwise, unless a file cannot be read.
     */
    method CheckClientProject(files: seq<GeneratedFile>) returns (result: CheckResult)
      ensures result == Agrees <==> Clean(tree, files)
      ensures result == CannotCheck
         <==> !ValidFiles(files) || [] in tree.files || |tree.files| > MAX_FILES
              || exists f <- files :: ReadExpected(tree, f) == Unreadable
      ensures result.Drifted? ==> result.drift == AllDrift(tree, files)
    {
      if !ValidFiles(files) || [] in tree.files || |tree.files| > MAX_FILES { return CannotCheck; }
      var drift := ReadFiles(files);
      if drift.None? { return CannotCheck; }
      var unexpected := set p | p in tree.files.Keys && !Expects(files, Join(p)) :: Unexpected(Join(p));
      assert unexpected == UnexpectedDrift(tree, files);
      NoDriftIsClean(tree, files);
      result := if drift.value + unexpected == {} then Agrees else Drifted(drift.value + unexpected);
    }

    /** The loop over the expected files; a read error ends it. */
    method ReadFiles(files: seq<GeneratedFile>) returns (drift: Option<set<Drift>>)
      ensures drift.None? <==> exists f <- files :: ReadExpected(tree, f) == Unreadable
      ensures drift.Some? ==> drift.value == ExpectedDrift(tree, files)
    {
      var found: set<Drift> := {};
      for i := 0 to |files|
        invariant found == ExpectedDrift(tree, files[..i])
        invariant forall f <- files[..i] :: ReadExpected(tree, f) != Unreadable
      {
        assert files[..i + 1] == files[..i] + [files[i]];
        match ReadExpected(tree, files[i]) {
          case Same =>
          case Differs(d) => found := found + {d};
          case Unreadable =>
            assert files[i] in files;
            return None;
        }
      }
      assert files[..|files|] == files;
      drift := Some(found);
    }
  }
}
