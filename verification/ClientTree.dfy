/**
 The output directory of the client generator as a mutable tree, and the generator's own
 decisions about it: which previous files it owns, when it refuses, what it deletes and what
 it writes. One file-system call is one step, so a run can be stopped after any of them.
 */
module ClientTree {
  import opened Wrappers
  import opened Collections
  import opened Paths

  /** File bytes: UTF-8 text by its characters, anything else by its bytes. */
  datatype Contents = Text(text: string) | Binary(bytes: seq<bv8>)

  /** Regular files and directories below (and including) the output root `[]`. */
  datatype Tree = Tree(files: map<Path, Contents>, dirs: set<Path>)

  datatype GeneratedFile = GeneratedFile(path: string, contents: string)

  /** What `serde_json` makes of a manifest: the two fields the generator looks at. */
  datatype Provenance =
    | Malformed
    | Provenance(version: Option<nat>, operations: Option<seq<Option<string>>>)

  type ManifestReader = string -> Provenance

  const MAX_FILES := 8192
  const MAX_MANIFEST_BYTES := 16 * 1024 * 1024
  const MAX_ARTIFACT_BYTES := 8 * 1024 * 1024
  const MANIFEST := "manifest.json"
  const ROUTES := "routes.ts"
  const MARKER := "/** GENERATED by distributed client. Do not edit. */"
  const ROUTES_MARKER := "/** GENERATED framework-neutral `@load` ownership plan. */"

  // ---------------------------------------------------------------- file system

  ghost predicate Placed(t: Tree, p: Path) {
    ValidNames(p) && (p != [] ==> Parent(p) in t.dirs)
  }

  /** No entry is both a file and a directory, and every entry lies in a directory. */
  ghost predicate WellFormed(t: Tree) {
    && t.files.Keys !! t.dirs
    && (forall p <- t.files.Keys :: Placed(t, p))
    && (forall p <- t.dirs :: Placed(t, p))
  }

  datatype Step =
    | MakeDir(dir: Path)
    | Remove(path: Path)
    | Write(file: GeneratedFile)

  /** One file-system call; `None` is the error it reports, which changes nothing. */
  function Apply(t: Tree, s: Step): Option<Tree> {
    match s
    case MakeDir(d) =>
      if d in t.dirs then Some(t)
      else if d in t.files || (d != [] && Parent(d) !in t.dirs) then None
      else Some(t.(dirs := t.dirs + {d}))
    case Remove(p) =>
      if p in t.files then Some(t.(files := t.files - {p})) else None
    case Write(f) =>
      var p := Names(f.path);
      if p == [] || DirSpelling(f.path) || p in t.dirs || Parent(p) !in t.dirs then None
      else Some(t.(files := t.files[p := Text(f.contents)]))
  }

  /** Where a run stopped, and whether that was its end or a failing call. */
  datatype Ran = Ran(tree: Tree, ok: bool)

  function Run(t: Tree, steps: seq<Step>): Ran
    decreases steps
  {
    if steps == [] then Ran(t, true)
    else match Apply(t, steps[0])
      case None => Ran(t, false)
      case Some(next) => Run(next, steps[1..])
  }

  /** UTF-8 length in bytes. */
  function Utf8Length(s: string): nat {
    if s == "" then 0
    else (if s[0] < '\U{80}' then 1 else if s[0] < '\U{800}' then 2 else if s[0] < '\U{10000}' then 3 else 4)
         + Utf8Length(s[1..])
  }

  // ---------------------------------------------------------------- validation

  predicate Expects(files: seq<GeneratedFile>, path: string) {
    exists i | 0 <= i < |files| :: files[i].path == path
  }

  /** `validate_generated_client_files`. */
  predicate ValidFiles(files: seq<GeneratedFile>) {
    && 1 <= |files| <= MAX_FILES
    && (forall i | 0 <= i < |files| :: AllNormal(Components(files[i].path)))
    && (forall i, j | 0 <= i < j < |files| :: files[i].path != files[j].path)
  }

  /** The component loop of `validate_client_write_targets` from component `i` on. */
  predicate InspectTarget(t: Tree, p: Path, i: nat)
    requires i <= |p|
    decreases |p| - i
  {
    if i == |p| then true
    else
      var current := p[..i + 1];
      if current !in t.files && current !in t.dirs then true
      else if i + 1 == |p| then current in t.files
      else current in t.dirs && InspectTarget(t, p, i + 1)
  }

  /** `validate_client_write_targets`. */
  predicate TargetsOk(t: Tree, files: seq<GeneratedFile>) {
    && [] !in t.files
    && ([] in t.dirs ==> forall i | 0 <= i < |files| :: InspectTarget(t, Names(files[i].path), 0))
  }

  predicate StartsWith(s: string, prefix: string) {
    prefix <= s
  }

  /** `extension() == "ts"`: something before a final `.ts`. */
  predicate HasTsExtension(name: string) {
    |name| > 3 && name[|name| - 3..] == ".ts"
  }

  /** `validate_previous_client_module_path`. */
  predicate ValidModulePath(path: string) {
    var c := Components(path);
    && |c| == 2
    && c[0] == Normal("operations")
    && c[1].Normal?
    && HasTsExtension(c[1].name)
  }

  function InsertSorted(x: string, xs: seq<string>): (r: seq<string>)
    ensures multiset(r) == multiset(xs) + multiset{x}
  {
    if xs == [] then [x]
    else if StrLess(x, xs[0]) then [x] + xs
    else
      assert xs == [xs[0]] + xs[1..];
      [xs[0]] + InsertSorted(x, xs[1..])
  }

  /** `BTreeSet::insert` on the ordered list of elements. */
  function InsertUnique(x: string, xs: seq<string>): seq<string> {
    if x in xs then xs else InsertSorted(x, xs)
  }

  /** The previous operation modules that the new project no longer produces. */
  function Candidates(operations: seq<Option<string>>, files: seq<GeneratedFile>): Option<seq<string>> {
    if operations == [] then Some([])
    else
      var last := operations[|operations| - 1];
      match Candidates(operations[..|operations| - 1], files)
      case None => None
      case Some(stale) =>
        if last.None? || !ValidModulePath(last.value) then None
        else if Expects(files, last.value) then Some(stale)
        else Some(InsertUnique(last.value, stale))
  }

  datatype Verdict = Absent | Deletable | Blocked

  predicate PrefixIsFile(t: Tree, p: Path) {
    exists i | 0 <= i < |p| :: p[..i] in t.files
  }

  predicate HasMarker(version: nat, relative: string, contents: string) {
    || StartsWith(contents, MARKER)
    || (version == 1 && relative == ROUTES && StartsWith(contents, ROUTES_MARKER))
  }

  /** The body of the ownership loop for one stale candidate. */
  function Inspect(t: Tree, version: nat, relative: string): Verdict {
    var p := Names(relative);
    if PrefixIsFile(t, p) || p in t.dirs then Blocked
    else if p !in t.files then Absent
    else if DirSpelling(relative) then Blocked
    else match t.files[p]
      case Binary(_) => Blocked
      case Text(contents) =>
        if Utf8Length(contents) <= MAX_ARTIFACT_BYTES && HasMarker(version, relative, contents) then Deletable
        else Blocked
  }

  function Owned(t: Tree, version: nat, candidates: seq<string>): Option<seq<string>> {
    if candidates == [] then Some([])
    else match Inspect(t, version, candidates[0])
      case Blocked => None
      case Absent => Owned(t, version, candidates[1..])
      case Deletable =>
        match Owned(t, version, candidates[1..])
        case None => None
        case Some(rest) => Some([candidates[0]] + rest)
  }

  /** Version and stale candidates that a manifest text declares against a project. */
  function Declared(read: ManifestReader, source: string, files: seq<GeneratedFile>)
    : Option<(nat, seq<string>)>
  {
    if Utf8Length(source) > MAX_MANIFEST_BYTES then None
    else match read(source)
      case Malformed => None
      case Provenance(version, operations) =>
        if version.None? || (version.value != 1 && version.value != 2) || operations.None? then None
        else match Candidates(operations.value, files)
          case None => None
          case Some(stale) =>
            if version.value == 1 && !Expects(files, ROUTES) then Some((1, InsertUnique(ROUTES, stale)))
            else Some((version.value, stale))
  }

  /** `stale_generated_client_files`. */
  function StaleFiles(read: ManifestReader, t: Tree, files: seq<GeneratedFile>): Option<seq<string>> {
    var manifest := [MANIFEST];
    if manifest in t.dirs then None
    else if manifest !in t.files then Some([])
    else if t.files[manifest].Binary? then None
    else match Declared(read, t.files[manifest].text, files)
      case None => None
      case Some((version, candidates)) => Owned(t, version, candidates)
  }

  predicate Spells(paths: seq<string>, p: Path) {
    exists i | 0 <= i < |paths| :: Names(paths[i]) == p
  }

  /** `validate_client_output_convergence`. */
  predicate Converges(t: Tree, files: seq<GeneratedFile>, stale: seq<string>) {
    && |t.files| <= MAX_FILES
    && forall p <- t.files.Keys :: Expects(files, Join(p)) || Spells(stale, p)
  }

  // ---------------------------------------------------------------- the run

  predicate Before(a: GeneratedFile, b: GeneratedFile) {
    if (a.path == MANIFEST) != (b.path == MANIFEST) then b.path == MANIFEST
    else StrLess(a.path, b.path)
  }

  function InsertFile(f: GeneratedFile, files: seq<GeneratedFile>): (r: seq<GeneratedFile>)
    ensures multiset(r) == multiset(files) + multiset{f}
  {
    if files == [] then [f]
    else if Before(files[0], f) then
      assert files == [files[0]] + files[1..];
      [files[0]] + InsertFile(f, files[1..])
    else [f] + files
  }

  /** `files.sort_by_key(|file| (file.path == "manifest.json", file.path))`. */
  function WriteOrder(files: seq<GeneratedFile>): (r: seq<GeneratedFile>)
    ensures multiset(r) == multiset(files)
  {
    if files == [] then []
    else
      assert files == [files[0]] + files[1..];
      InsertFile(files[0], WriteOrder(files[1..]))
  }

  function PlacesOf(paths: seq<string>): (r: seq<Path>)
    ensures |r| == |paths| && forall i | 0 <= i < |r| :: r[i] == Names(paths[i])
  {
    seq(|paths|, i requires 0 <= i < |paths| => Names(paths[i]))
  }

  function Removes(places: seq<Path>): (r: seq<Step>)
    ensures |r| == |places|
  {
    if places == [] then [] else [Remove(places[0])] + Removes(places[1..])
  }

  /** `create_dir_all` of the parent of `p`, one directory at a time. */
  function MakeDirs(p: Path, i: nat): seq<Step>
    requires i <= |p|
    decreases |p| - i
  {
    if i == |p| then [] else [MakeDir(p[..i])] + MakeDirs(p, i + 1)
  }

  function Writes(files: seq<GeneratedFile>): seq<Step> {
    if files == [] then []
    else MakeDirs(Names(files[0].path), 0) + [Write(files[0])] + Writes(files[1..])
  }

  function Script(stale: seq<string>, files: seq<GeneratedFile>): seq<Step> {
    [MakeDir([])] + Removes(PlacesOf(stale)) + Writes(WriteOrder(files))
  }

  /** The validation part of `write_client_project`: the stale files, or a refusal. */
  function Plan(read: ManifestReader, t: Tree, files: seq<GeneratedFile>): Option<seq<string>> {
    if !ValidFiles(files) || !TargetsOk(t, files) then None
    else match StaleFiles(read, t, files)
      case None => None
      case Some(stale) => if Converges(t, files, stale) then Some(stale) else None
  }

  // ---------------------------------------------------------------- checking

  datatype Drift = Changed(path: string) | Missing(path: string) | Unexpected(path: string)

  /** Reading one expected file: the drift it shows, nothing, or a read error. */
  datatype Reading = Same | Differs(drift: Drift) | Unreadable

  function ReadExpected(t: Tree, f: GeneratedFile): Reading {
    var p := Names(f.path);
    if PrefixIsFile(t, p) || p in t.dirs then Unreadable
    else if p !in t.files then Differs(Missing(f.path))
    else if DirSpelling(f.path) then Unreadable
    else match t.files[p]
      case Binary(_) => Unreadable
      case Text(contents) => if contents == f.contents then Same else Differs(Changed(f.path))
  }
}
