/**
 The generator's rules as its documentation would list them, each tied to the code that
 applies it: which module paths it takes from a manifest, what a byte limit measures, in what
 order it writes, and when it refuses a project.
 */
module ClientRules {
  import opened Wrappers
  import opened Collections
  import opened Paths
  import opened ClientTree
  import opened ClientSync
  import opened ClientCheck
  import opened ClientStops
  import opened ClientRecovery

  // ---------------------------------------------------------------- module paths

  /** A path of two names: `operations`, and a name that ends in `.ts` and is longer than that. */
  ghost predicate NamesModule(x: string, stem: string) {
    stem != "" && Components(x) == [Normal("operations"), Normal(stem + ".ts")]
  }

  lemma {:induction false} ExtensionExact(name: string)
    ensures HasTsExtension(name) <==> exists stem :: stem != "" && name == stem + ".ts"
  {
    if HasTsExtension(name) {
      var stem := name[..|name| - 3];
      assert name == stem + name[|name| - 3..];
    }
    if stem :| stem != "" && name == stem + ".ts" {
      assert name[|name| - 3..] == ".ts";
    }
  }

  /** The module paths a previous manifest may list are exactly those. */
  lemma {:induction false} ModulePathExact(x: string)
    ensures ValidModulePath(x) <==> exists stem :: NamesModule(x, stem)
  {
    var c := Components(x);
    if ValidModulePath(x) {
      ExtensionExact(c[1].name);
      var stem :| stem != "" && c[1].name == stem + ".ts";
      assert NamesModule(x, stem);
    }
    if stem :| NamesModule(x, stem) {
      assert c[1].name == stem + ".ts";
      ExtensionExact(c[1].name);
    }
  }

  // ---------------------------------------------------------------- byte limits

  /** The bytes of one character: the lead says how many follow, and each that follows carries six bits. */
  function Utf8(c: char): seq<int> {
    var n := c as int;
    if n < 0x80 then [n]
    else if n < 0x800 then [0xC0 + n / 0x40, 0x80 + n % 0x40]
    else if n < 0x1_0000 then [0xE0 + n / 0x1000, 0x80 + n / 0x40 % 0x40, 0x80 + n % 0x40]
    else [0xF0 + n / 0x4_0000, 0x80 + n / 0x1000 % 0x40, 0x80 + n / 0x40 % 0x40, 0x80 + n % 0x40]
  }

  /** The number a sequence of such bytes stands for, by the bits of each. */
  function Scalar(bytes: seq<int>): int {
    match |bytes|
    case 1 => bytes[0]
    case 2 => (bytes[0] - 0xC0) * 0x40 + (bytes[1] - 0x80)
    case 3 => (bytes[0] - 0xE0) * 0x1000 + (bytes[1] - 0x80) * 0x40 + (bytes[2] - 0x80)
    case 4 =>
      (bytes[0] - 0xF0) * 0x4_0000 + (bytes[1] - 0x80) * 0x1000 + (bytes[2] - 0x80) * 0x40 + (bytes[3] - 0x80)
    case _ => 0
  }

  lemma SixBits(n: int)
    requires 0 <= n
    ensures n == n / 0x40 * 0x40 + n % 0x40 && n / 0x40 / 0x40 == n / 0x1000 && n / 0x1000 / 0x40 == n / 0x4_0000
    ensures n / 0x40 == n / 0x1000 * 0x40 + n / 0x40 % 0x40
    ensures n / 0x1000 == n / 0x4_0000 * 0x40 + n / 0x1000 % 0x40
  {
  }

  lemma {:induction false} Utf8Exact(c: char)
    ensures var bytes := Utf8(c);
            && 1 <= |bytes| <= 4 && Scalar(bytes) == c as int && (forall b <- bytes :: 0 <= b < 0x100)
            && (forall i | 1 <= i < |bytes| :: 0x80 <= bytes[i] < 0xC0)
            && match |bytes|
               case 1 => bytes[0] < 0x80
               case 2 => 0xC2 <= bytes[0] < 0xE0
               case 3 => 0xE0 <= bytes[0] < 0xF0
               case _ => 0xF0 <= bytes[0] < 0xF8
  {
    SixBits(c as int);
  }

  function Bytes(s: string): seq<int> { if s == "" then [] else Utf8(s[0]) + Bytes(s[1..]) }

  /** What the size limits measure is the number of UTF-8 bytes. */
  lemma {:induction false} Utf8LengthExact(s: string)
    ensures Utf8Length(s) == |Bytes(s)|
  {
    if s != "" { Utf8LengthExact(s[1..]); }
  }

  // ---------------------------------------------------------------- the order of writing

  /** Characters agree up to a place where the first string ends or has the smaller one. */
  ghost predicate DiffersAt(a: string, b: string, k: nat) {
    k <= |a| && k < |b| && a[..k] == b[..k] && (k == |a| || a[k] < b[k])
  }

  lemma {:induction false} StrLessExact(a: string, b: string)
    ensures StrLess(a, b) <==> exists k: nat :: DiffersAt(a, b, k)
  {
    if a != "" && b != "" && a[0] == b[0] {
      StrLessExact(a[1..], b[1..]);
      if StrLess(a, b) {
        var k: nat :| DiffersAt(a[1..], b[1..], k);
        assert a[..k + 1] == [a[0]] + a[1..][..k] && b[..k + 1] == [b[0]] + b[1..][..k];
        assert DiffersAt(a, b, k + 1);
      }
      if k: nat :| DiffersAt(a, b, k) {
        assert k > 0 && a[1..][..k - 1] == a[..k][1..] && b[1..][..k - 1] == b[..k][1..];
        assert DiffersAt(a[1..], b[1..], k - 1);
      }
    } else {
      assert StrLess(a, b) ==> DiffersAt(a, b, 0);
      if k: nat :| DiffersAt(a, b, k) {
        if k > 0 { assert a[..k][0] == b[..k][0]; }
      }
    }
  }

  lemma {:induction false} StrLessTotal(a: string, b: string)
    ensures StrLess(a, b) || a == b || StrLess(b, a)
    ensures !(StrLess(a, b) && StrLess(b, a)) && (a == b ==> !StrLess(a, b))
  {
    if a != "" && b != "" {
      StrLessTotal(a[1..], b[1..]);
      assert a == [a[0]] + a[1..] && b == [b[0]] + b[1..];
    }
  }

  lemma {:induction false} StrLessTransitive(a: string, b: string, c: string)
    requires StrLess(a, b) && StrLess(b, c)
    ensures StrLess(a, c)
  {
    if a != "" && b != "" && c != "" && a[0] == b[0] == c[0] { StrLessTransitive(a[1..], b[1..], c[1..]); }
  }

  /** The manifest comes after everything else, and other files in the order of their paths. */
  ghost predicate Earlier(f: GeneratedFile, g: GeneratedFile) {
    f.path != "manifest.json" && (g.path == "manifest.json" || StrLess(f.path, g.path))
  }

  ghost predicate InOrder(files: seq<GeneratedFile>) {
    forall i, j | 0 <= i < j < |files| :: Earlier(files[i], files[j])
  }

  lemma {:induction false} EarlierTransitive(f: GeneratedFile, g: GeneratedFile, h: GeneratedFile)
    requires Earlier(f, g) && Earlier(g, h)
    ensures Earlier(f, h)
  {
    if g.path != "manifest.json" && h.path != "manifest.json" { StrLessTransitive(f.path, g.path, h.path); }
  }

  lemma {:induction false} BeforeIsEarlier(f: GeneratedFile, g: GeneratedFile)
    requires f.path != g.path
    ensures Before(f, g) <==> Earlier(f, g)
    ensures !Before(f, g) ==> Earlier(g, f)
  {
    StrLessTotal(f.path, g.path);
  }

  lemma {:induction false} InsertInOrder(f: GeneratedFile, files: seq<GeneratedFile>)
    requires InOrder(files) && forall g <- files :: g.path != f.path
    ensures InOrder(InsertFile(f, files))
  {
    if files != [] {
      var head, rest := files[0], files[1..];
      assert head in files && forall g <- rest :: g in files;
      BeforeIsEarlier(head, f);
      if Before(head, f) {
        assert InOrder(rest) by { assert forall i | 0 <= i < |rest| :: rest[i] == files[i + 1]; }
        InsertInOrder(f, rest);
        var more := InsertFile(f, rest);
        forall g <- more ensures Earlier(head, g) {
          assert g in multiset(more);
          if g != f {
            assert g in rest;
            var i :| 0 <= i < |rest| && rest[i] == g;
            assert files[i + 1] == g;
          }
        }
        ConsInOrder(head, more);
      } else {
        forall g <- files ensures Earlier(f, g) {
          if g != head {
            var i :| 0 <= i < |files| && files[i] == g;
            EarlierTransitive(f, head, g);
          }
        }
        ConsInOrder(f, files);
      }
    }
  }

  lemma {:induction false} ConsInOrder(f: GeneratedFile, files: seq<GeneratedFile>)
    requires InOrder(files) && forall g <- files :: Earlier(f, g)
    ensures InOrder([f] + files)
  {
    var all := [f] + files;
    forall i, j | 0 <= i < j < |all| ensures Earlier(all[i], all[j]) {
      assert all[j] == files[j - 1] && (i > 0 ==> all[i] == files[i - 1]);
    }
  }

  /** The files are written once each, in the order of their paths, the manifest last. */
  lemma {:induction false} WriteOrderExact(files: seq<GeneratedFile>)
    requires forall i, j | 0 <= i < j < |files| :: files[i].path != files[j].path
    ensures multiset(WriteOrder(files)) == multiset(files) && InOrder(WriteOrder(files))
  {
    if files != [] {
      var rest := files[1..];
      assert forall i | 0 <= i < |rest| :: rest[i] == files[i + 1];
      WriteOrderExact(rest);
      SameFiles(WriteOrder(rest), rest);
      forall g <- WriteOrder(rest) ensures g.path != files[0].path {
        assert g in rest;
        var i :| 0 <= i < |rest| && rest[i] == g;
      }
      InsertInOrder(files[0], WriteOrder(rest));
    }
  }

  /** Where several paths name one place, it ends with the text of the last of them in that order. */
  lemma {:induction false} LastSpellingWins(files: seq<GeneratedFile>, f: GeneratedFile)
    requires ValidFiles(files) && f in files
    requires forall g <- files | Names(g.path) == Names(f.path) && g != f :: Earlier(g, f)
    ensures Shows(Final(files), f)
  {
    var order := WriteOrder(files);
    WriteOrderExact(files);
    SameFiles(order, files);
    var i :| 0 <= i < |order| && order[i] == f;
    var later := order[i + 1..];
    forall g <- later ensures Names(g.path) != Names(f.path) {
      var j :| 0 <= j < |later| && later[j] == g;
      assert order[i + 1 + j] == g && g in files && Earlier(f, g);
      EarlierIrreflexive(f, g);
    }
    WrittenLast(map[], order, i);
  }

  lemma {:induction false} EarlierIrreflexive(f: GeneratedFile, g: GeneratedFile)
    requires Earlier(f, g)
    ensures f != g && !Earlier(g, f)
  {
    StrLessTotal(f.path, g.path);
  }

  lemma {:induction false} WrittenLast(m: map<Path, Contents>, order: seq<GeneratedFile>, i: nat)
    requires i < |order| && forall g <- order[i + 1..] :: Names(g.path) != Names(order[i].path)
    ensures Shows(WriteAll(m, order), order[i])
    decreases i
  {
    var next := m[Names(order[0].path) := Text(order[0].contents)];
    if i == 0 {
      assert Names(order[0].path) !in Keys(order[1..]);
      WriteAllKept(next, order[1..], Names(order[0].path));
    } else {
      assert order[1..][i - 1] == order[i] && order[1..][i..] == order[i + 1..];
      WrittenLast(next, order[1..], i - 1);
    }
  }

  // ---------------------------------------------------------------- when a project is refused

  /** A previous manifest of version one or two whose operations all name modules. */
  ghost predicate ReadableManifest(m: Provenance) {
    && m.Provenance? && (m.version == Some(1) || m.version == Some(2)) && m.operations.Some?
    && forall op <- m.operations.value :: op.Some? && exists stem :: NamesModule(op.value, stem)
  }

  /** What the manifest lists and the project no longer has, with the route plan of version one. */
  ghost predicate NoLongerProduced(m: Provenance, files: seq<GeneratedFile>, x: string)
    requires m.Provenance? && m.operations.Some?
  {
    !Expects(files, x) && (Some(x) in m.operations.value || (m.version == Some(1) && x == "routes.ts"))
  }

  lemma {:induction false} OperationsExact(operations: seq<Option<string>>, files: seq<GeneratedFile>)
    ensures Candidates(operations, files).Some?
       <==> forall op <- operations :: op.Some? && exists stem :: NamesModule(op.value, stem)
  {
    CandidatesAccepted(operations, files);
    forall op <- operations | op.Some?
      ensures ValidModulePath(op.value) <==> exists stem :: NamesModule(op.value, stem)
    {
      ModulePathExact(op.value);
    }
  }

  /** A manifest is taken exactly when it has at most sixteen mebibytes and is readable. */
  lemma {:induction false} ManifestAccepted(read: ManifestReader, source: string, files: seq<GeneratedFile>)
    ensures Declared(read, source, files).Some? <==> Utf8Length(source) <= 16_777_216 && ReadableManifest(read(source))
  {
    var m := read(source);
    if m.Provenance? && m.operations.Some? { OperationsExact(m.operations.value, files); }
  }

  lemma {:induction false} StaleExact(operations: seq<Option<string>>, files: seq<GeneratedFile>, stale: seq<string>)
    requires Candidates(operations, files) == Some(stale)
    ensures Distinct(stale) && forall x :: x in stale <==> Some(x) in operations && !Expects(files, x)
  {
    CandidatesMeaning(operations, files);
    forall x ensures x in stale <==> Some(x) in operations && !Expects(files, x) {
      CandidatesExact(operations, files, x);
    }
  }

  /** It then stands for exactly the modules it lists that the project no longer has, and the route plan. */
  lemma {:induction false} DeclaredExact(
    read: ManifestReader, source: string, files: seq<GeneratedFile>, version: nat, c: seq<string>)
    requires Declared(read, source, files) == Some((version, c))
    ensures read(source).Provenance? && read(source).operations.Some?
    ensures read(source).version == Some(version) && Distinct(c)
    ensures forall x :: x in c <==> NoLongerProduced(read(source), files, x)
  {
    var m := read(source);
    var stale := Candidates(m.operations.value, files).value;
    StaleExact(m.operations.value, files, stale);
    InsertUniqueMeaning(ROUTES, stale);
    forall x ensures x in c <==> NoLongerProduced(m, files, x) {
      assert x in c <==> x in stale || (version == 1 && !Expects(files, ROUTES) && x == ROUTES);
    }
  }

  /** The paths of a project: 1 to 8192 of them, all different, each of plain names. */
  ghost predicate GoodPaths(files: seq<GeneratedFile>) {
    && 1 <= |files| <= 8192 && (forall f <- files :: AllNormal(Components(f.path)))
    && forall i, j | 0 <= i < j < |files| :: files[i].path != files[j].path
  }

  /** No directory stands in the file's place and no file in its way; the root itself names no file. */
  ghost predicate Reachable(t: Tree, f: GeneratedFile) {
    Names(f.path) == [] || (Names(f.path) !in t.dirs && StrictPrefixes(Names(f.path), 0) !! t.files.Keys)
  }

  /** What stands in a listed module's place is owned, or there is nothing, and nothing in the way. */
  ghost predicate Removable(t: Tree, version: nat, x: string) {
    var p := Names(x);
    || (p in t.files && !DirSpelling(x) && OwnedText(version, x, t.files[p]))
    || (p !in t.files && p !in t.dirs && StrictPrefixes(p, 0) !! t.files.Keys)
  }

  /**
   The whole validation. A project is accepted on a tree exactly when its paths are good and
   reachable, the root is no file, the manifest on disk, if any, is a readable text, every
   module it lists that is no longer produced can be removed or is gone, and the tree has at
   most 8192 files, each of them expected or listed so.
   */
  lemma {:induction false} PlanRules(read: ManifestReader, t: Tree, files: seq<GeneratedFile>)
    requires WellFormed(t)
    ensures Plan(read, t, files).Some?
       <==> && GoodPaths(files) && [] !in t.files && (forall f <- files :: Reachable(t, f))
            && var d := DeclaredBy(read, t, files);
               && d.Some? && (forall x <- d.value.1 :: Removable(t, d.value.0, x))
               && |t.files| <= 8192
               && forall p <- t.files.Keys :: Expects(files, Join(p)) || exists x <- d.value.1 :: Names(x) == p
  {
    GoodPathsExact(files);
    TargetsExact(t, files);
    StaleIsOwned(read, t, files);
    var d := DeclaredBy(read, t, files);
    if d.Some? {
      var (version, c) := d.value;
      OwnedAccepted(t, version, c);
      forall x <- c ensures Inspect(t, version, x) != Blocked <==> Removable(t, version, x) {
        InspectExact(t, version, x);
      }
      if Unblocked(t, version, c) && |t.files| <= MAX_FILES {
        OwnedCovers(t, files, version, c, Owned(t, version, c).value);
        CoveredExact(t, files, c);
      }
    }
  }

  lemma {:induction false} GoodPathsExact(files: seq<GeneratedFile>)
    ensures ValidFiles(files) <==> GoodPaths(files)
  {
    assert (forall f <- files :: AllNormal(Components(f.path)))
      <==> forall i | 0 <= i < |files| :: AllNormal(Components(files[i].path));
  }

  lemma {:induction false} CoveredExact(t: Tree, files: seq<GeneratedFile>, c: seq<string>)
    ensures Covered(t, files, c)
       <==> forall p <- t.files.Keys :: Expects(files, Join(p)) || exists x <- c :: Names(x) == p
  {
    forall p ensures Spells(c, p) <==> exists x <- c :: Names(x) == p {
      if Spells(c, p) { var x := SpelledBy(c, p); }
      if x :| x in c && Names(x) == p { SpellsNames(c, x); }
    }
  }

  lemma {:induction false} ReachableExact(t: Tree, f: GeneratedFile)
    requires WellFormed(t) && [] in t.dirs && [] !in t.files
    ensures InspectTarget(t, Names(f.path), 0) <==> Reachable(t, f)
  {
    var p := Names(f.path);
    assert p[..0] == [];
    InspectTargetMeaning(t, p, 0);
    forall j | 0 <= j < |p| ensures p[..j] in StrictPrefixes(p, 0) {}
  }

  lemma {:induction false} TargetsExact(t: Tree, files: seq<GeneratedFile>)
    requires WellFormed(t)
    ensures TargetsOk(t, files) <==> [] !in t.files && forall f <- files :: Reachable(t, f)
  {
    if [] !in t.files {
      if [] in t.dirs {
        forall f <- files ensures InspectTarget(t, Names(f.path), 0) <==> Reachable(t, f) { ReachableExact(t, f); }
        assert (forall f <- files :: InspectTarget(t, Names(f.path), 0))
          <==> forall i | 0 <= i < |files| :: InspectTarget(t, Names(files[i].path), 0);
      } else {
        forall q ensures q !in t.files && q !in t.dirs {
          if q in t.files || q in t.dirs { RootIsDir(t, q); }
        }
      }
    }
  }

  /** What the manifest on disk declares: nothing without one, and no more than a text. */
  lemma ManifestRule(read: ManifestReader, t: Tree, files: seq<GeneratedFile>)
    requires WellFormed(t)
    ensures var manifest, d := ["manifest.json"], DeclaredBy(read, t, files);
            if manifest in t.files && t.files[manifest].Text?
            then d == Declared(read, t.files[manifest].text, files)
            else d == if manifest in t.files || manifest in t.dirs then None else Some((2, []))
  {
  }
}
