/**
 Every tree in which a run of the generator can be stopped, and what the manifest says there.
 */
module ClientStops {
  import opened Wrappers
  import opened Collections
  import opened Paths
  import opened ClientTree
  import opened ClientSync
  import opened ClientCheck

  // ---------------------------------------------------------------- stopping anywhere

  ghost predicate FromProject(files: seq<GeneratedFile>, p: Path, c: Contents) {
    exists f :: f in files && Names(f.path) == p && c == Text(f.contents)
  }

  ghost predicate SameAt(a: Tree, b: Tree, p: Path) {
    (p in a.files <==> p in b.files) && (p in a.files ==> a.files[p] == b.files[p])
  }

  /**
   Every tree a run from `t0` can be stopped in. `places` are the places it planned to delete
   from: nothing else is missing, and what is there is old, or new in full.
   */
  ghost predicate Between(t0: Tree, files: seq<GeneratedFile>, places: set<Path>, t: Tree) {
    && WellFormed(t)
    && t0.dirs <= t.dirs <= t0.dirs + Dirs(files) + {[]}
    && (forall p <- t.files.Keys :: (p in t0.files && t.files[p] == t0.files[p]) || FromProject(files, p, t.files[p]))
    && t0.files.Keys - places <= t.files.Keys
    && (t.files.Keys <= t0.files.Keys || t.files.Keys <= Keys(files))
    && (SameAt(t0, t, [MANIFEST]) || t.files == Final(files))
  }

  /** Between start and end, with the manifest of the start. */
  ghost predicate StoppedIn(t0: Tree, files: seq<GeneratedFile>, places: set<Path>, t: Tree) {
    Between(t0, files, places, t) && SameAt(t0, t, [MANIFEST])
  }

  /** The tree a run leaves when it is stopped after `k` steps. */
  function StoppedAt(t: Tree, steps: seq<Step>, k: nat): Tree
    requires k <= |steps|
  {
    Run(t, steps[..k]).tree
  }

  /** A step of an unfinished write phase: a directory or a file of the project, not the manifest. */
  ghost predicate Unfinished(s: Step, files: seq<GeneratedFile>) {
    || (s.MakeDir? && ValidNames(s.dir) && s.dir in Dirs(files))
    || (s.Write? && s.file in files && (CanOpen(s.file) ==> Names(s.file.path) != [MANIFEST]))
  }

  /** Directories and writes of a project change nothing but the places of that project. */
  lemma {:induction false} WritesStayInside(t: Tree, steps: seq<Step>, files: seq<GeneratedFile>)
    requires WellFormed(t) && forall s <- steps :: Unfinished(s, files)
    ensures var r := Run(t, steps).tree;
            && WellFormed(r)
            && t.dirs <= r.dirs <= t.dirs + Dirs(files)
            && (forall p <- r.files.Keys ::
                  (p in t.files && r.files[p] == t.files[p]) || FromProject(files, p, r.files[p]))
            && t.files.Keys <= r.files.Keys
            && SameAt(t, r, [MANIFEST])
    decreases steps
  {
    if steps != [] {
      assert Unfinished(steps[0], files);
      ApplyKeepsWellFormed(t, steps[0]);
      match Apply(t, steps[0])
      case None =>
      case Some(next) => WritesStayInside(next, steps[1..], files);
    }
  }

  lemma {:induction false} RemovesPrefix(places: seq<Path>, k: nat)
    requires k <= |places|
    ensures Removes(places)[..k] == Removes(places[..k])
  {
    if k > 0 {
      RemovesPrefix(places[1..], k - 1);
      assert places[..k][1..] == places[1..][..k - 1];
      assert Removes(places)[..k] == [Remove(places[0])] + Removes(places[1..])[..k - 1];
    }
  }

  lemma {:induction false} RemovesOnlyDelete(t: Tree, places: seq<Path>)
    ensures var r := Run(t, Removes(places)).tree;
            r.dirs == t.dirs && t.files.Keys - Set(places) <= r.files.Keys <= t.files.Keys
            && forall p <- r.files.Keys :: r.files[p] == t.files[p]
    decreases places
  {
    if places != [] {
      assert Removes(places)[1..] == Removes(places[1..]);
      assert places == [places[0]] + places[1..];
      match Apply(t, Remove(places[0]))
      case None =>
      case Some(next) => RemovesOnlyDelete(next, places[1..]);
    }
  }

  /** Only the last write of a run can be the manifest. */
  ghost predicate ManifestLast(files: seq<GeneratedFile>) {
    forall i | 0 <= i < |files| - 1 :: files[i].path != MANIFEST
  }

  lemma {:induction false} InsertManifestLast(f: GeneratedFile, files: seq<GeneratedFile>)
    requires ManifestLast(files) && (f.path == MANIFEST ==> forall i | 0 <= i < |files| :: files[i].path != MANIFEST)
    ensures ManifestLast(InsertFile(f, files))
  {
    if files != [] && Before(files[0], f) {
      InsertManifestLast(f, files[1..]);
      var rest := InsertFile(f, files[1..]);
      forall i | 0 <= i < |rest| ensures ([files[0]] + rest)[i + 1] == rest[i] {}
    }
  }

  lemma {:induction false} WriteOrderManifestLast(files: seq<GeneratedFile>)
    requires forall i, j | 0 <= i < j < |files| :: files[i].path != files[j].path
    ensures ManifestLast(WriteOrder(files))
  {
    if files != [] {
      WriteOrderManifestLast(files[1..]);
      var rest, order := files[1..], WriteOrder(files[1..]);
      SameFiles(order, rest);
      forall i | 0 <= i < |order| ensures order[i].path != files[0].path {
        assert order[i] in rest;
        var k :| 0 <= k < |rest| && rest[k] == order[i];
        assert rest[k] == files[k + 1];
      }
      InsertManifestLast(files[0], WriteOrder(files[1..]));
    }
  }

  lemma {:induction false} WritesManifestLast(files: seq<GeneratedFile>, k: nat)
    requires ManifestLast(files) && k < |Writes(files)| - 1
    ensures Writes(files)[k].Write? ==> Writes(files)[k].file.path != MANIFEST
  {
    var dirs, rest := MakeDirs(Names(files[0].path), 0), Writes(files[1..]);
    NamesValid(files[0].path);
    MakeDirsAreValid(Names(files[0].path), 0);
    assert Writes(files) == dirs + [Write(files[0])] + rest;
    if k < |dirs| {
      assert Writes(files)[k] == dirs[k] && dirs[k] in dirs;
    } else if k == |dirs| {
      assert rest != [];
    } else {
      WritesManifestLast(files[1..], k - |dirs| - 1);
    }
  }

  /** Stopping among the deletions. */
  lemma {:induction false} StoppedDeleting(t: Tree, files: seq<GeneratedFile>, places: seq<Path>)
    requires WellFormed(t) && [] !in t.files && [MANIFEST] !in places
    ensures StoppedIn(t, files, Set(places), Run(Tree(t.files, t.dirs + {[]}), Removes(places)).tree)
  {
    var rooted := Tree(t.files, t.dirs + {[]});
    RemovesOnlyDelete(rooted, places);
    var r := Run(rooted, Removes(places)).tree;
    var gone := t.files.Keys - r.files.Keys;
    assert r.files == t.files - gone;
    RemovedWellFormed(t, gone);
    assert SameAt(t, r, [MANIFEST]);
  }

  lemma {:induction false} UnfinishedWrites(files: seq<GeneratedFile>, j: nat)
    requires ValidFiles(files) && j < |Writes(WriteOrder(files))|
    ensures forall s <- Writes(WriteOrder(files))[..j] :: Unfinished(s, files)
  {
    var order := WriteOrder(files);
    SameFiles(order, files);
    WritesAreValid(order);
    WriteOrderManifestLast(files);
    forall s | s in Writes(order)[..j] ensures Unfinished(s, files) {
      var i :| 0 <= i < j && s == Writes(order)[i];
      assert Writes(order)[i] in Writes(order);
      WritesManifestLast(order, i);
      if s.Write? && CanOpen(s.file) && Names(s.file.path) == [MANIFEST] { ManifestSpelling(files, s.file); }
    }
  }

  /** A project path that can be opened and names the manifest's place is spelled like it. */
  lemma ManifestSpelling(files: seq<GeneratedFile>, f: GeneratedFile)
    requires ValidFiles(files) && f in files && CanOpen(f) && Names(f.path) == [MANIFEST]
    ensures f.path == MANIFEST
  {
    SpelledOnce(f.path);
  }

  /** Stopping among the writes, before the last of them. */
  lemma {:induction false} StoppedWriting(t: Tree, files: seq<GeneratedFile>, places: set<Path>, steps: seq<Step>)
    requires WellFormed(t) && [] !in t.files && [MANIFEST] !in places && t.files.Keys - places <= Keys(files)
    requires forall s <- steps :: Unfinished(s, files)
    ensures StoppedIn(t, files, places, Run(Tree(t.files - places, t.dirs + {[]}), steps).tree)
  {
    var removed := Tree(t.files - places, t.dirs + {[]});
    RemovedWellFormed(t, places);
    WritesStayInside(removed, steps, files);
    var r := Run(removed, steps).tree;
    forall p | p in r.files ensures p in Keys(files) {
    }
    assert SameAt(removed, r, [MANIFEST]);
  }

  /** A prefix of a script is a prefix of its deletions, or all of them and a prefix of its writes. */
  lemma {:induction false} ScriptPrefix(t: Tree, places: seq<Path>, writes: seq<Step>, k: nat)
    requires k <= 1 + |places| + |writes| && [] !in t.files
    ensures var script, rooted := [MakeDir([])] + Removes(places) + writes, Tree(t.files, t.dirs + {[]});
            var stopped := Run(t, script[..k]).tree;
            || stopped == t
            || (exists n :: 0 <= n <= |places| && stopped == Run(rooted, Removes(places[..n])).tree)
            || (Run(rooted, Removes(places)).ok
                && exists j ::
                     0 <= j <= |writes| && stopped == Run(Run(rooted, Removes(places)).tree, writes[..j]).tree)
  {
    var script, rooted := [MakeDir([])] + Removes(places) + writes, Tree(t.files, t.dirs + {[]});
    assert Apply(t, MakeDir([])) == Some(rooted) by {
      assert [] in t.dirs ==> t.dirs + {[]} == t.dirs;
    }
    if k > 0 {
      if k - 1 <= |places| {
        RemovesPrefix(places, k - 1);
        assert script[..k] == [MakeDir([])] + Removes(places[..k - 1]);
      } else {
        var j := k - 1 - |places|;
        assert script[..k] == [MakeDir([])] + (Removes(places) + writes[..j]);
        RunConcat(rooted, Removes(places), writes[..j]);
        assert places[..|places|] == places;
      }
    }
  }

  lemma StoppedMore(t0: Tree, files: seq<GeneratedFile>, places: set<Path>, more: set<Path>, t: Tree)
    requires StoppedIn(t0, files, places, t) && places <= more
    ensures StoppedIn(t0, files, more, t)
  {
  }

  lemma {:induction false} StoppedSomewhere(
    t: Tree, files: seq<GeneratedFile>, places: seq<Path>, writes: seq<Step>, k: nat)
    requires WellFormed(t) && [] !in t.files && [MANIFEST] !in places && t.files.Keys - Set(places) <= Keys(files)
    requires k <= 1 + |places| + |writes| && forall s <- writes :: Unfinished(s, files)
    ensures StoppedIn(t, files, Set(places), Run(t, ([MakeDir([])] + Removes(places) + writes)[..k]).tree)
  {
    ScriptPrefix(t, places, writes, k);
    var rooted := Tree(t.files, t.dirs + {[]});
    var stopped := Run(t, ([MakeDir([])] + Removes(places) + writes)[..k]).tree;
    if stopped == t {
    } else if n :| 0 <= n <= |places| && stopped == Run(rooted, Removes(places[..n])).tree {
      assert forall p <- places[..n] :: p in places;
      StoppedDeleting(t, files, places[..n]);
      StoppedMore(t, files, Set(places[..n]), Set(places), stopped);
    } else {
      var j :| 0 <= j <= |writes| && stopped == Run(Run(rooted, Removes(places)).tree, writes[..j]).tree;
      RemovesOutcome(rooted, places);
      assert forall s <- writes[..j] :: s in writes;
      StoppedWriting(t, files, Set(places), writes[..j]);
    }
  }

  lemma {:induction false} WritesNotEmpty(files: seq<GeneratedFile>)
    requires files != []
    ensures WriteOrder(files) != [] && Writes(WriteOrder(files)) != []
  {
    assert |multiset(WriteOrder(files))| == |multiset(files)|;
  }

  lemma {:induction false} StoppedEarly(t: Tree, files: seq<GeneratedFile>, stale: seq<string>, k: nat)
    requires WellFormed(t) && [] !in t.files && ValidFiles(files)
    requires [MANIFEST] !in PlacesOf(stale) && t.files.Keys - Set(PlacesOf(stale)) <= Keys(files)
    requires k < |Script(stale, files)|
    ensures StoppedIn(t, files, Set(PlacesOf(stale)), StoppedAt(t, Script(stale, files), k))
  {
    var places, writes := PlacesOf(stale), Writes(WriteOrder(files));
    WritesNotEmpty(files);
    var init := writes[..|writes| - 1];
    PrefixOfInit([MakeDir([])] + Removes(places), writes, k);
    UnfinishedWrites(files, |init|);
    StoppedSomewhere(t, files, places, init, k);
  }

  lemma PrefixOfInit(a: seq<Step>, b: seq<Step>, k: nat)
    requires b != [] && k < |a| + |b|
    ensures (a + b)[..k] == (a + b[..|b| - 1])[..k]
  {
  }

  lemma PlannedPlaces(read: ManifestReader, t: Tree, files: seq<GeneratedFile>)
    requires Plan(read, t, files).Some?
    ensures [MANIFEST] !in PlacesOf(Plan(read, t, files).value)
  {
    var stale := Plan(read, t, files).value;
    forall i | 0 <= i < |stale| ensures PlacesOf(stale)[i] != [MANIFEST] {
      OnlyOwnedFilesAreDeleted(read, t, files, stale[i]);
    }
  }

  lemma LastStepFails(t: Tree, steps: seq<Step>)
    requires steps != [] && !Run(t, steps).ok
    ensures StoppedAt(t, steps, |steps|) == StoppedAt(t, steps, |steps| - 1)
  {
    var init, last := steps[..|steps| - 1], steps[|steps| - 1];
    assert steps[..|steps|] == steps == init + [last];
    RunConcat(t, init, [last]);
    if Run(t, init).ok {
      var next := Apply(Run(t, init).tree, last);
      if next.Some? { assert Run(next.value, []) == Ran(next.value, true); }
    }
  }

  lemma {:induction false} Finished(read: ManifestReader, t: Tree, files: seq<GeneratedFile>)
    requires WellFormed(t) && Plan(read, t, files).Some? && Run(t, Script(Plan(read, t, files).value, files)).ok
    ensures var stale := Plan(read, t, files).value;
            Between(t, files, Set(PlacesOf(stale)), Run(t, Script(stale, files)).tree)
  {
    RunConverges(read, t, files);
    PlannedKeys(read, t, files);
    FinalDomain(files);
    forall p <- Keys(files) ensures FromProject(files, p, Final(files)[p]) {
      var f := FinalSource(files, p);
    }
  }

  lemma StoppedBefore(read: ManifestReader, t: Tree, files: seq<GeneratedFile>, stale: seq<string>)
    requires WellFormed(t) && Plan(read, t, files) == Some(stale)
    ensures forall k: nat | k < |Script(stale, files)| ::
              StoppedIn(t, files, Set(PlacesOf(stale)), StoppedAt(t, Script(stale, files), k))
  {
    PlannedPlaces(read, t, files);
    PlannedKeys(read, t, files);
    forall k: nat | k < |Script(stale, files)|
      ensures StoppedIn(t, files, Set(PlacesOf(stale)), StoppedAt(t, Script(stale, files), k))
    {
      StoppedEarly(t, files, stale, k);
    }
  }

  lemma StoppedFailed(t: Tree, files: seq<GeneratedFile>, places: set<Path>, script: seq<Step>)
    requires script != [] && !Run(t, script).ok
    requires forall k: nat | k < |script| :: StoppedIn(t, files, places, StoppedAt(t, script, k))
    ensures StoppedIn(t, files, places, StoppedAt(t, script, |script|))
  {
    LastStepFails(t, script);
    assert StoppedIn(t, files, places, StoppedAt(t, script, |script| - 1));
  }

  /**
   Every tree in which a planned run can be stopped lies between its start and its end: only
   planned deletions are missing, and the manifest is the old one unless the run completed.
   */
  lemma {:induction false} StoppedBetween(read: ManifestReader, t: Tree, files: seq<GeneratedFile>, k: nat)
    requires WellFormed(t) && Plan(read, t, files).Some?
    requires k <= |Script(Plan(read, t, files).value, files)|
    ensures var stale := Plan(read, t, files).value;
            var script, places := Script(stale, files), Set(PlacesOf(stale));
            && Between(t, files, places, StoppedAt(t, script, k))
            && (k < |script| || !Run(t, script).ok ==> SameAt(t, StoppedAt(t, script, k), [MANIFEST]))
  {
    var stale := Plan(read, t, files).value;
    StoppedBefore(read, t, files, stale);
    if k == |Script(stale, files)| {
      if Run(t, Script(stale, files)).ok {
        assert Script(stale, files)[..k] == Script(stale, files);
        Finished(read, t, files);
      } else {
        StoppedFailed(t, files, Set(PlacesOf(stale)), Script(stale, files));
      }
    }
  }

  // ---------------------------------------------------------------- provenance last

  ghost predicate Shows(m: map<Path, Contents>, f: GeneratedFile) {
    Names(f.path) in m && m[Names(f.path)] == Text(f.contents)
  }

  /** Every file of the project is on disk with its new contents. */
  ghost predicate Complete(t: Tree, files: seq<GeneratedFile>) { forall f <- files :: Shows(t.files, f) }

  ghost predicate Advertises(t: Tree, manifest: GeneratedFile) {
    [MANIFEST] in t.files && t.files[[MANIFEST]] == Text(manifest.contents)
  }

  /** Paths that name one place have one text. */
  ghost predicate OneText(files: seq<GeneratedFile>) {
    forall f <- files, g <- files | Names(f.path) == Names(g.path) :: f.contents == g.contents
  }

  /** What a completed run leaves at a project place is the text of some file that names it. */
  lemma FinalSource(files: seq<GeneratedFile>, p: Path) returns (f: GeneratedFile)
    requires p in Keys(files)
    ensures f in files && Names(f.path) == p && Shows(Final(files), f)
  {
    var order := WriteOrder(files);
    SameFiles(order, files);
    WriteAllSource(map[], order, p);
    var k :| 0 <= k < |order| && Names(order[k].path) == p && Final(files)[p] == Text(order[k].contents);
    f := order[k];
    assert f in files;
  }

  lemma FinalComplete(files: seq<GeneratedFile>)
    ensures (forall f <- files :: Shows(Final(files), f)) <==> OneText(files)
  {
    if OneText(files) {
      forall f <- files ensures Shows(Final(files), f) {
        assert Names(f.path) in Keys(files);
        var g := FinalSource(files, Names(f.path));
      }
    } else {
      var f, g :| f in files && g in files && Names(f.path) == Names(g.path) && f.contents != g.contents;
      assert !(Shows(Final(files), f) && Shows(Final(files), g));
    }
  }

  /** A completed run that writes a manifest ends with that manifest. */
  lemma FinalManifest(files: seq<GeneratedFile>, manifest: GeneratedFile)
    requires ValidFiles(files) && Writable(files) && manifest in files && manifest.path == MANIFEST
    ensures Shows(Final(files), manifest) && Names(MANIFEST) == [MANIFEST]
  {
    ManifestNames();
    assert Names(manifest.path) in Keys(files);
    var f := FinalSource(files, [MANIFEST]);
    assert CanOpen(f);
    ManifestSpelling(files, f);
    UniqueFile(files, f, manifest);
  }

  lemma ManifestNames()
    ensures Names(MANIFEST) == [MANIFEST] && ValidName(MANIFEST)
  {
    assert Join([MANIFEST]) == MANIFEST;
    JoinNames([MANIFEST]);
  }

  lemma DeletionsRun(t: Tree, places: seq<Path>)
    requires [] !in t.files && Set(places) <= t.files.Keys && Distinct(places)
    ensures Run(t, [MakeDir([])] + Removes(places)) == Ran(Tree(t.files - Set(places), t.dirs + {[]}), true)
  {
    var rooted := Tree(t.files, t.dirs + {[]});
    assert Apply(t, MakeDir([])) == Some(rooted) by {
      assert [] in t.dirs ==> t.dirs + {[]} == t.dirs;
    }
    RemovesOutcome(rooted, places);
  }

  /** A stop right after the last deletion. */
  lemma AfterDeletions(t: Tree, stale: seq<string>, files: seq<GeneratedFile>)
    requires [] !in t.files && Set(PlacesOf(stale)) <= t.files.Keys && Distinct(PlacesOf(stale))
    ensures 1 + |stale| <= |Script(stale, files)|
    ensures StoppedAt(t, Script(stale, files), 1 + |stale|) == Tree(t.files - Set(PlacesOf(stale)), t.dirs + {[]})
  {
    var head := [MakeDir([])] + Removes(PlacesOf(stale));
    assert (head + Writes(WriteOrder(files)))[..|head|] == head;
    DeletionsRun(t, PlacesOf(stale));
  }

  /** What the start must be like for the new manifest never to stand over incomplete files. */
  ghost predicate HonestStart(
    t0: Tree, files: seq<GeneratedFile>, stale: seq<string>, manifest: GeneratedFile)
  {
    Advertises(t0, manifest) ==> Complete(t0, files) && Set(PlacesOf(stale)) !! Keys(files)
  }

  lemma HonestBetween(t0: Tree, files: seq<GeneratedFile>, stale: seq<string>, t: Tree, manifest: GeneratedFile)
    requires Between(t0, files, Set(PlacesOf(stale)), t) && OneText(files) && HonestStart(t0, files, stale, manifest)
    ensures Advertises(t, manifest) ==> Complete(t, files)
  {
    FinalComplete(files);
    if Advertises(t, manifest) && t.files != Final(files) {
      forall f <- files ensures Shows(t.files, f) {
        assert Shows(t0.files, f) && Names(f.path) in Keys(files);
      }
    }
  }

  /** Where the new manifest stands, the new files stand too. */
  ghost predicate Honest(t: Tree, files: seq<GeneratedFile>, manifest: GeneratedFile) {
    Advertises(t, manifest) ==> Complete(t, files)
  }

  lemma HonestNeeded(read: ManifestReader, t0: Tree, files: seq<GeneratedFile>, manifest: GeneratedFile)
    requires WellFormed(t0) && Plan(read, t0, files).Some? && Distinct(PlacesOf(Plan(read, t0, files).value))
    requires Advertises(t0, manifest)
    requires var script := Script(Plan(read, t0, files).value, files);
             forall k: nat | k <= |script| :: Honest(StoppedAt(t0, script, k), files, manifest)
    ensures Set(PlacesOf(Plan(read, t0, files).value)) !! Keys(files)
  {
    var stale := Plan(read, t0, files).value;
    PlannedKeys(read, t0, files);
    PlannedPlaces(read, t0, files);
    AfterDeletions(t0, stale, files);
    var t := StoppedAt(t0, Script(stale, files), 1 + |stale|);
    assert Honest(t, files, manifest) && Advertises(t, manifest);
    forall p <- Keys(files) ensures p !in Set(PlacesOf(stale)) {
      var f :| f in files && Names(f.path) == p;
      assert Shows(t.files, f);
    }
  }

  lemma FinishHonest(read: ManifestReader, t0: Tree, files: seq<GeneratedFile>, manifest: GeneratedFile)
    requires WellFormed(t0) && Plan(read, t0, files).Some? && Run(t0, Script(Plan(read, t0, files).value, files)).ok
    requires manifest in files && manifest.path == MANIFEST
    ensures Honest(Run(t0, Script(Plan(read, t0, files).value, files)).tree, files, manifest) <==> OneText(files)
  {
    RunConverges(read, t0, files);
    FinalManifest(files, manifest);
    FinalComplete(files);
  }

  /**
   No step of a completed run stands under the new manifest with incomplete files, if and only
   if paths that name one place have one text, and a start that already advertises the new
   generation is complete and loses none of its files to the deletions.
   */
  lemma {:induction false} ManifestMeansComplete(
    read: ManifestReader, t0: Tree, files: seq<GeneratedFile>, manifest: GeneratedFile)
    requires WellFormed(t0) && Plan(read, t0, files).Some? && Run(t0, Script(Plan(read, t0, files).value, files)).ok
    requires manifest in files && manifest.path == MANIFEST
    ensures var stale := Plan(read, t0, files).value;
            var script := Script(stale, files);
            (forall k: nat | k <= |script| :: Honest(StoppedAt(t0, script, k), files, manifest))
            <==> OneText(files) && HonestStart(t0, files, stale, manifest)
  {
    var stale := Plan(read, t0, files).value;
    var script := Script(stale, files);
    if OneText(files) && HonestStart(t0, files, stale, manifest) {
      forall k: nat | k <= |script| ensures Honest(StoppedAt(t0, script, k), files, manifest) {
        StoppedBetween(read, t0, files, k);
        HonestBetween(t0, files, stale, StoppedAt(t0, script, k), manifest);
      }
    }
    if forall k: nat | k <= |script| :: Honest(StoppedAt(t0, script, k), files, manifest) {
      HonestEnds(read, t0, files, manifest);
    }
  }

  lemma HonestEnds(read: ManifestReader, t0: Tree, files: seq<GeneratedFile>, manifest: GeneratedFile)
    requires WellFormed(t0) && Plan(read, t0, files).Some? && Run(t0, Script(Plan(read, t0, files).value, files)).ok
    requires manifest in files && manifest.path == MANIFEST
    requires var script := Script(Plan(read, t0, files).value, files);
             forall k: nat | k <= |script| :: Honest(StoppedAt(t0, script, k), files, manifest)
    ensures OneText(files) && HonestStart(t0, files, Plan(read, t0, files).value, manifest)
  {
    var script := Script(Plan(read, t0, files).value, files);
    assert Honest(StoppedAt(t0, script, 0), files, manifest) && StoppedAt(t0, script, 0) == t0;
    assert Honest(StoppedAt(t0, script, |script|), files, manifest) && script[..|script|] == script;
    RunCompletes(read, t0, files);
    FinishHonest(read, t0, files, manifest);
    if Advertises(t0, manifest) { HonestNeeded(read, t0, files, manifest); }
  }
}
