/**
 Relative paths as the Rust standard library reads them on unix: a path string is cut at
 every `/`, empty and `.` segments disappear (a leading `.` stays as `CurDir`), and what is
 left is a list of components. Several strings therefore name one file.
 */
module Paths {

  type Path = seq<string>

  datatype Component = RootDir | CurDir | ParentDir | Normal(name: string)

  /** `str::split('/')`. */
  function Segments(s: string): (r: seq<string>)
    ensures |r| >= 1
  {
    if s == "" then [""]
    else
      var rest := Segments(s[1..]);
      if s[0] == '/' then [""] + rest else [[s[0]] + rest[0]] + rest[1..]
  }

  function OfSegment(segment: string): seq<Component> {
    if segment == "" || segment == "." then []
    else if segment == ".." then [ParentDir]
    else [Normal(segment)]
  }

  function OfSegments(segments: seq<string>): seq<Component> {
    if segments == [] then [] else OfSegment(segments[0]) + OfSegments(segments[1..])
  }

  /** `Path::new(s).components()`. */
  function Components(s: string): seq<Component> {
    (if s != "" && s[0] == '/' then [RootDir]
     else if Segments(s)[0] == "." then [CurDir]
     else []) + OfSegments(Segments(s))
  }

  predicate AllNormal(components: seq<Component>) {
    forall i | 0 <= i < |components| :: components[i].Normal?
  }

  function NamesOf(components: seq<Component>): Path {
    if components == [] then []
    else (if components[0].Normal? then [components[0].name] else []) + NamesOf(components[1..])
  }

  /** The place in a tree that a path string of normal components names. */
  function Names(s: string): Path {
    NamesOf(OfSegments(Segments(s)))
  }

  /** A string ending in `/` or `/.` can only name a directory. */
  predicate DirSpelling(s: string) {
    var segments := Segments(s);
    segments[|segments| - 1] == "" || segments[|segments| - 1] == "."
  }

  /** `parts.join("/")`, the portable spelling of a place. */
  function Join(names: Path): string {
    if names == [] then "" else if |names| == 1 then names[0] else names[0] + "/" + Join(names[1..])
  }

  predicate ValidName(name: string) {
    name != "" && name != "." && name != ".." && '/' !in name
  }

  predicate ValidNames(names: Path) {
    forall i | 0 <= i < |names| :: ValidName(names[i])
  }

  function Parent(p: Path): Path
    requires p != []
  {
    p[..|p| - 1]
  }

  /** A path string is canonical when it is the portable spelling of the place it names. */
  ghost predicate Canonical(s: string) {
    Names(s) != [] && s == Join(Names(s))
  }

  lemma SegmentsPrefix(name: string, rest: string)
    requires '/' !in name
    ensures Segments(name) == [name]
    ensures Segments(name + "/" + rest) == [name] + Segments(rest)
  {
    if name == "" {
      assert "" + "/" + rest == "/" + rest;
    } else {
      SegmentsPrefix(name[1..], rest);
      assert [name[0]] + name[1..] == name;
      assert (name + "/" + rest)[1..] == name[1..] + "/" + rest;
    }
  }

  lemma SegmentsJoin(names: Path)
    requires names != [] && ValidNames(names)
    ensures Segments(Join(names)) == names
  {
    if |names| == 1 {
      SegmentsPrefix(names[0], "");
    } else {
      SegmentsPrefix(names[0], Join(names[1..]));
      SegmentsJoin(names[1..]);
    }
  }

  lemma {:induction false} NormalSegments(names: Path)
    requires ValidNames(names)
    ensures AllNormal(OfSegments(names)) && NamesOf(OfSegments(names)) == names
  {
    if names != [] {
      NormalSegments(names[1..]);
      assert OfSegments(names) == [Normal(names[0])] + OfSegments(names[1..]);
    }
  }

  /** The portable spelling names exactly the place it was made from, so it is canonical. */
  lemma JoinNames(names: Path)
    requires names != [] && ValidNames(names)
    ensures Names(Join(names)) == names && Canonical(Join(names))
    ensures AllNormal(Components(Join(names))) && !DirSpelling(Join(names))
  {
    SegmentsJoin(names);
    NormalSegments(names);
    var s := Join(names);
    assert s[0] == names[0][0] != '/';
    assert ValidName(names[|names| - 1]);
  }

  lemma SegmentsSlashFree(s: string)
    ensures forall i | 0 <= i < |Segments(s)| :: '/' !in Segments(s)[i]
  {
  }

  lemma {:induction false} NamesOfValid(segments: seq<string>)
    requires forall i | 0 <= i < |segments| :: '/' !in segments[i]
    ensures ValidNames(NamesOf(OfSegments(segments)))
  {
    if segments != [] {
      NamesOfValid(segments[1..]);
      var head, tail := OfSegment(segments[0]), OfSegments(segments[1..]);
      if head == [] {
        assert OfSegments(segments) == tail;
      } else {
        assert OfSegments(segments) == [head[0]] + tail;
      }
    }
  }

  lemma NamesValid(s: string)
    ensures ValidNames(Names(s))
  {
    SegmentsSlashFree(s);
    NamesOfValid(Segments(s));
  }

  lemma {:induction false} LastNameCounts(segments: seq<string>)
    requires segments != [] && OfSegment(segments[|segments| - 1]) == [Normal(segments[|segments| - 1])]
    ensures NamesOf(OfSegments(segments)) != []
  {
    var head, tail := OfSegment(segments[0]), OfSegments(segments[1..]);
    if head == [] {
      assert OfSegments(segments) == tail;
      LastNameCounts(segments[1..]);
    } else {
      if head[0].ParentDir? { LastNameCounts(segments[1..]); }
      assert OfSegments(segments) == [head[0]] + tail;
    }
  }

  lemma {:induction false} SingleSegment(s: string)
    requires |Segments(s)| == 1
    ensures Segments(s)[0] == s
  {
    if s != "" { SingleSegment(s[1..]); }
  }

  lemma {:induction false} NormalMember(segments: seq<string>, i: nat)
    requires i < |segments| && AllNormal(OfSegments(segments)) && segments[i] != "" && segments[i] != "."
    ensures OfSegment(segments[i]) == [Normal(segments[i])]
  {
    var head, tail := OfSegment(segments[0]), OfSegments(segments[1..]);
    if i == 0 {
      assert OfSegments(segments)[0] == head[0];
    } else {
      forall j | 0 <= j < |tail| ensures tail[j].Normal? { assert tail[j] == (head + tail)[|head| + j]; }
      NormalMember(segments[1..], i - 1);
    }
  }

  /** A file in the root has one spelling among the relative paths without `.` and `..`. */
  lemma SpelledOnce(s: string)
    requires AllNormal(Components(s)) && !DirSpelling(s) && |Names(s)| == 1
    ensures s == Names(s)[0]
  {
    var segments := Segments(s);
    assert s != "" && Components(s)[0].Normal?;
    assert segments[0] != "" && segments[0] != "." && OfSegments(segments) == Components(s);
    NormalMember(segments, 0);
    NormalMember(segments, |segments| - 1);
    assert OfSegments(segments) == [Normal(segments[0])] + OfSegments(segments[1..]);
    if |segments| > 1 { LastNameCounts(segments[1..]); }
    SingleSegment(s);
  }
}
