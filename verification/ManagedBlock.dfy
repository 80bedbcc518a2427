/** Keeping one managed block inside a text file that belongs to somebody else. */
module ManagedBlock {
  import opened Wrappers
  import opened Characters

  // ---------------------------------------------------------------- finding

  predicate Occurs(s: string, p: string, i: nat) { i + |p| <= |s| && s[i..i + |p|] == p }

  predicate Contains(s: string, p: string) { exists i: nat | i <= |s| :: Occurs(s, p, i) }

  function FindFrom(s: string, p: string, i: nat): (r: Option<nat>)
    requires i <= |s|
    ensures r.Some? ==> i <= r.value && Occurs(s, p, r.value) && forall j | i <= j < r.value :: !Occurs(s, p, j)
    ensures r.None? ==> forall j | i <= j <= |s| :: !Occurs(s, p, j)
    decreases |s| - i
  {
    if Occurs(s, p, i) then Some(i) else if i == |s| then None else FindFrom(s, p, i + 1)
  }

  /** `str::find` */
  function Find(s: string, p: string): (r: Option<nat>)
    ensures r.Some? ==> Occurs(s, p, r.value) && forall j: nat | j < r.value :: !Occurs(s, p, j)
    ensures r.None? <==> !Contains(s, p)
  {
    FindFrom(s, p, 0)
  }

  // ---------------------------------------------------------------- merging a block

  /** The first character of a marker occurs nowhere else in it. */
  predicate Marker(p: string) { p != [] && p[0] == '<' && forall i | 0 < i < |p| :: p[i] != '<' }

  predicate BlankText(s: string) { forall c <- s :: IsWhitespace(c) }

  /** `trim_end_matches('\n')` */
  function TrimNewlines(s: string): string {
    if s != [] && s[|s| - 1] == '\n' then TrimNewlines(s[..|s| - 1]) else s
  }

  /** Merges `body`, which starts with the marker `begin`, and the closing marker `end` into a text. */
  function MergeBlock(begin: string, end: string, body: string, existing: Option<string>): Result<string, ()> {
    if existing.None? then Ok(body + end + "\n") else
    var text := existing.value;
    var first, last := Find(text, begin), Find(text, end);
    if first.Some? && last.Some? && last.value >= first.value then
      Ok(text[..first.value] + (body + end + text[last.value + |end|..]))
    else if first.None? && last.None? then
      if BlankText(text) then Ok(body + end + "\n") else Ok(TrimNewlines(text) + "\n\n" + (body + end + "\n"))
    else Err(())
  }

  lemma OccursAt(s: string, p: string, i: nat, k: nat)
    requires Occurs(s, p, i) && k < |p|
    ensures s[i + k] == p[k]
  {
    assert s[i..i + |p|][k] == s[i + k];
  }

  /** An occurrence inside a part is an occurrence in the whole. */
  lemma OccursWithin(a: string, b: string, c: string, p: string, i: nat)
    ensures Occurs(b, p, i) ==> Occurs(a + b + c, p, |a| + i)
    ensures |a| <= i && i + |p| <= |a| + |b| && Occurs(a + b + c, p, i) ==> Occurs(b, p, i - |a|)
  {
    var s := a + b + c;
    if Occurs(b, p, i) { assert s[|a| + i..|a| + i + |p|] == b[i..i + |p|]; }
    if |a| <= i && i + |p| <= |a| + |b| { assert s[i..i + |p|] == b[i - |a|..i - |a| + |p|]; }
  }

  /** A marker that ends after a `<` does not start before it. */
  lemma NoStraddle(s: string, p: string, i: nat, k: nat)
    requires Marker(p) && i < k < |s| && s[k] == '<' && Occurs(s, p, i)
    ensures i + |p| <= k
  {
    if k < i + |p| { OccursAt(s, p, i, k - i); }
  }

  /** Before a `<` nothing is found that was not in the text before it. */
  lemma NothingBefore(pre: string, rest: string, p: string, i: nat)
    requires Marker(p) && !Contains(pre, p) && rest != [] && rest[0] == '<' && i < |pre|
    ensures !Occurs(pre + rest, p, i)
  {
    assert [] + pre + rest == pre + rest;
    if Occurs(pre + rest, p, i) {
      NoStraddle(pre + rest, p, i, |pre|);
      OccursWithin([], pre, rest, p, i);
    }
  }

  lemma FindsFirst(s: string, p: string, i: nat)
    requires Occurs(s, p, i) && forall j: nat | j < i :: !Occurs(s, p, j)
    ensures Find(s, p) == Some(i)
  {
  }

  lemma FindsBegin(pre: string, rest: string, begin: string)
    requires Marker(begin) && !Contains(pre, begin) && begin <= rest
    ensures Find(pre + rest, begin) == Some(|pre|)
  {
    var s := pre + rest;
    assert s[|pre|..|pre| + |begin|] == rest[..|begin|];
    forall j: nat | j < |pre| ensures !Occurs(s, begin, j) { NothingBefore(pre, rest, begin, j); }
    FindsFirst(s, begin, |pre|);
  }

  ghost function EndOf(body: string, end: string): (k: nat)
    requires end != []
    ensures k <= |body| && (k < |body| <==> Contains(body, end))
    ensures Contains(body, end) ==> k + |end| <= |body| && Occurs(body, end, k)
    ensures forall j: nat | j < k :: !Occurs(body, end, j)
  {
    if Contains(body, end) then Find(body, end).value else |body|
  }

  lemma EndOccurs(pre: string, body: string, end: string, post: string)
    requires end != []
    ensures Occurs(pre + (body + end + post), end, |pre| + EndOf(body, end))
  {
    var s, k := pre + (body + end + post), EndOf(body, end);
    assert s == pre + body + (end + post);
    if Contains(body, end) {
      OccursWithin(pre, body, end + post, end, k);
    } else {
      assert s[|pre| + k..|pre| + k + |end|] == end;
    }
  }

  lemma EndNotBefore(pre: string, body: string, end: string, post: string, j: nat)
    requires Marker(end) && !Contains(pre, end) && body != [] && body[0] == '<'
    requires j < |pre| + EndOf(body, end)
    ensures !Occurs(pre + (body + end + post), end, j)
  {
    var s := pre + (body + end + post);
    assert s == pre + body + (end + post);
    if j < |pre| {
      NothingBefore(pre, body + end + post, end, j);
    } else if Occurs(s, end, j) {
      NoStraddle(s, end, j, |pre| + |body|);
      OccursWithin(pre, body, end + post, end, j);
    }
  }

  /** The closing marker is found where the body first has it, or else where the body ends. */
  lemma FindsEnd(pre: string, body: string, end: string, post: string)
    requires Marker(end) && !Contains(pre, end) && body != [] && body[0] == '<'
    ensures Find(pre + (body + end + post), end) == Some(|pre| + EndOf(body, end))
  {
    var s := pre + (body + end + post);
    EndOccurs(pre, body, end, post);
    forall j: nat | j < |pre| + EndOf(body, end) ensures !Occurs(s, end, j) { EndNotBefore(pre, body, end, post, j); }
    FindsFirst(s, end, |pre| + EndOf(body, end));
  }

  /** What a merge makes of a text that already has the block between `pre` and `post`. */
  lemma MergeAgain(begin: string, end: string, body: string, pre: string, post: string)
    requires Marker(begin) && Marker(end) && begin <= body && !Contains(pre, begin) && !Contains(pre, end)
    ensures var k := EndOf(body, end);
            k + |end| <= |body + end + post|
            && MergeBlock(begin, end, body, Some(pre + (body + end + post)))
               == Ok(pre + (body + end + (body + end + post)[k + |end|..]))
  {
    var rest, k := body + end + post, EndOf(body, end);
    assert begin <= rest by { assert rest[..|begin|] == body[..|begin|]; }
    FindsBegin(pre, rest, begin);
    FindsEnd(pre, body, end, post);
    MergeReplaces(begin, end, body, pre, rest, k);
  }

  lemma MergeReplaces(begin: string, end: string, body: string, pre: string, rest: string, k: nat)
    requires Find(pre + rest, begin) == Some(|pre|) && Find(pre + rest, end) == Some(|pre| + k) && k + |end| <= |rest|
    ensures MergeBlock(begin, end, body, Some(pre + rest)) == Ok(pre + (body + end + rest[k + |end|..]))
  {
    assert (pre + rest)[..|pre|] == pre;
    TailAfter(pre, rest, k + |end|);
  }

  lemma TailAfter(pre: string, rest: string, k: nat)
    requires k <= |rest|
    ensures (pre + rest)[|pre| + k..] == rest[k..]
  {
  }

  /** A block that is already there is left alone exactly when its body is free of the closing marker. */
  lemma MergeAgainIsStable(begin: string, end: string, body: string, pre: string, post: string)
    requires Marker(begin) && Marker(end) && begin <= body && !Contains(pre, begin) && !Contains(pre, end)
    ensures var s := pre + (body + end + post);
            MergeBlock(begin, end, body, Some(s)).Ok?
            && (MergeBlock(begin, end, body, Some(s)) == Ok(s) <==> !Contains(body, end))
  {
    MergeAgain(begin, end, body, pre, post);
    var rest := body + end + post;
    if Contains(body, end) {
      var k := EndOf(body, end);
      assert |pre + (body + end + rest[k + |end|..])| > |pre + rest|;
    } else {
      assert rest[|body| + |end|..] == post;
    }
  }

  /** A text around the block, both sides as they are. */
  ghost predicate Placed(begin: string, end: string, body: string, s: string, pre: string, post: string) {
    s == pre + (body + end + post) && !Contains(pre, begin) && !Contains(pre, end)
  }

  lemma {:induction false} TrimIsPrefix(s: string)
    ensures TrimNewlines(s) <= s && forall i | |TrimNewlines(s)| <= i < |s| :: s[i] == '\n'
    ensures TrimNewlines(s) != [] ==> TrimNewlines(s)[|TrimNewlines(s)| - 1] != '\n'
  {
    if s != [] && s[|s| - 1] == '\n' { TrimIsPrefix(s[..|s| - 1]); }
  }

  lemma FreeBefore(s: string, p: string, n: nat)
    requires n <= |s| && p != [] && forall j: nat | j < n :: !Occurs(s, p, j)
    ensures !Contains(s[..n], p)
  {
    forall i: nat | i <= n ensures !Occurs(s[..n], p, i) {
      assert i < n ==> !Occurs(s, p, i);
      assert i + |p| <= n ==> s[..n][i..i + |p|] == s[i..i + |p|];
    }
  }

  /** A character that is not in `p` keeps the text on its two sides apart. */
  lemma Apart(a: string, c: char, b: string, p: string)
    requires c !in p && p != []
    ensures Contains(a + ([c] + b), p) <==> Contains(a, p) || Contains(b, p)
  {
    var s := a + ([c] + b);
    assert s == [] + a + ([c] + b) && s == (a + [c]) + b + [];
    if Contains(a, p) {
      var i: nat :| i <= |a| && Occurs(a, p, i);
      OccursWithin([], a, [c] + b, p, i);
    }
    if Contains(b, p) {
      var i: nat :| i <= |b| && Occurs(b, p, i);
      OccursWithin(a + [c], b, [], p, i);
    }
    if Contains(s, p) {
      var i: nat :| i <= |s| && Occurs(s, p, i);
      if i <= |a| < i + |p| { OccursAt(s, p, i, |a| - i); }
      OccursWithin([], a, [c] + b, p, i);
      OccursWithin(a + [c], b, [], p, i);
    }
  }

  lemma EmptyFree(p: string)
    requires p != []
    ensures !Contains([], p)
  {
  }

  lemma NewlineAfter(s: string, p: string)
    requires !Contains(s, p) && '\n' !in p && p != []
    ensures !Contains(s + ['\n'], p)
  {
    EmptyFree(p);
    Apart(s, '\n', [], p);
    assert s + (['\n'] + []) == s + ['\n'];
  }

  lemma AppendedFree(text: string, p: string)
    requires !Contains(text, p) && '\n' !in p && p != []
    ensures !Contains(TrimNewlines(text) + "\n\n", p)
  {
    var t := TrimNewlines(text);
    TrimIsPrefix(text);
    FreeBefore(text, p, |t|);
    assert t == text[..|t|];
    NewlineAfter(t, p);
    NewlineAfter(t + ['\n'], p);
    assert t + "\n\n" == t + ['\n'] + ['\n'];
  }

  /** Where a successful merge leaves the block, and the text it keeps around it. */
  lemma MergePlaces(begin: string, end: string, body: string, existing: Option<string>)
    returns (pre: string, post: string)
    requires Marker(begin) && Marker(end) && '\n' !in begin && '\n' !in end
    requires MergeBlock(begin, end, body, existing).Ok?
    ensures Placed(begin, end, body, MergeBlock(begin, end, body, existing).value, pre, post)
  {
    EmptyFree(begin);
    EmptyFree(end);
    if existing.None? {
      pre, post := [], "\n";
    } else {
      var text := existing.value;
      var first, last := Find(text, begin), Find(text, end);
      if first.Some? {
        pre, post := text[..first.value], text[last.value + |end|..];
        FreeBefore(text, begin, first.value);
        FreeBefore(text, end, first.value);
      } else if BlankText(text) {
        pre, post := [], "\n";
      } else {
        pre, post := TrimNewlines(text) + "\n\n", "\n";
        AppendedFree(text, begin);
        AppendedFree(text, end);
      }
    }
  }

  /**
   Merging a merged text again is never refused, and changes nothing exactly when the block's body
   is free of the closing marker.
   */
  lemma MergeIsStable(begin: string, end: string, body: string, existing: Option<string>)
    requires Marker(begin) && Marker(end) && '\n' !in begin && '\n' !in end && begin <= body
    requires MergeBlock(begin, end, body, existing).Ok?
    ensures var s := MergeBlock(begin, end, body, existing).value;
            MergeBlock(begin, end, body, Some(s)).Ok?
            && (MergeBlock(begin, end, body, Some(s)) == Ok(s) <==> !Contains(body, end))
  {
    var pre, post := MergePlaces(begin, end, body, existing);
    MergeAgainIsStable(begin, end, body, pre, post);
  }

  /** An older block is replaced, and the text on both sides is kept byte for byte. */
  lemma ReplaceKeepsText(begin: string, end: string, body: string, pre: string, old': string, post: string)
    requires Marker(begin) && Marker(end) && begin <= old' && !Contains(old', end)
    requires !Contains(pre, begin) && !Contains(pre, end)
    ensures MergeBlock(begin, end, body, Some(pre + (old' + end + post))) == Ok(pre + (body + end + post))
  {
    var rest := old' + end + post;
    assert rest[..|begin|] == old'[..|begin|];
    FindsBegin(pre, rest, begin);
    FindsEnd(pre, old', end, post);
    var s := pre + rest;
    assert s[..|pre|] == pre && s[|pre| + |old'| + |end|..] == post;
  }

  /** A text without markers keeps everything but its trailing newlines, and the block follows a blank line. */
  lemma AppendKeepsText(begin: string, end: string, body: string, text: string)
    requires !Contains(text, begin) && !Contains(text, end) && !BlankText(text)
    ensures var kept := TrimNewlines(text);
            && MergeBlock(begin, end, body, Some(text)) == Ok(kept + "\n\n" + (body + end + "\n"))
            && kept <= text && (forall i | |kept| <= i < |text| :: text[i] == '\n')
            && (kept != [] ==> kept[|kept| - 1] != '\n')
  {
    TrimIsPrefix(text);
  }

  /** The first place where `p` occurs. */
  ghost predicate FirstAt(s: string, p: string, i: nat) {
    Occurs(s, p, i) && forall j: nat | j < i :: !Occurs(s, p, j)
  }

  /** The text holds both markers, the opening one first. */
  ghost predicate HoldsBlock(begin: string, end: string, text: string) {
    exists i: nat, j: nat :: FirstAt(text, begin, i) && FirstAt(text, end, j) && i <= j
  }

  /**
   A text takes the block exactly when it holds one, or holds neither marker; one with a single
   marker, or with the closing one first, is refused. No text, and a blank one, give the block alone.
   */
  lemma MergeAccepts(begin: string, end: string, body: string, text: string)
    ensures MergeBlock(begin, end, body, Some(text)).Ok?
       <==> HoldsBlock(begin, end, text) || (!Contains(text, begin) && !Contains(text, end))
    ensures MergeBlock(begin, end, body, None) == Ok(body + end + "\n")
    ensures BlankText(text) && !Contains(text, begin) && !Contains(text, end) ==>
              MergeBlock(begin, end, body, Some(text)) == Ok(body + end + "\n")
  {
    var first, last := Find(text, begin), Find(text, end);
    if first.Some? && last.Some? {
      assert FirstAt(text, begin, first.value) && FirstAt(text, end, last.value);
    }
  }

  // ---------------------------------------------------------------- the skills block

  const STEM := "!-- distributed:skills:"
  const BEGIN_REST := "begin (managed by " + "distributed skills " + "init; do not edit " + "inside) -->"
  const END_REST := "end -->"

  const BEGIN := ['<'] + (STEM + BEGIN_REST)
  const END := ['<'] + (STEM + END_REST)

  const TITLE := "## Distributed " + "framework skills\n\n" + "Skills for building " + "services with "
                 + "Distributed live in `.agents/skills/`\n" + "(canonical source: "
  const ADVICE := "skills/`). Consult " + "the relevant skill " + "before\nscaffolding, " + "CI, or schema work:\n"

  datatype Skill = Skill(name: string, description: string)

  /** One line of the list, followed by `tail`. */
  function Line(skill: Skill, tail: string): string {
    "- *" + (['*'] + (skill.name + (['*'] + ("* " + (['—'] + ([' '] + skill.description + (['\n'] + tail)))))))
  }

  function Lines(skills: seq<Skill>): string {
    if skills == [] then [] else Line(skills[0], Lines(skills[1..]))
  }

  function Introduction(container: string, tail: string): string {
    ['\n'] + (TITLE + (['`'] + (container + (['/'] + (ADVICE + (['\n'] + tail))))))
  }

  /** The managed block up to its closing marker. */
  function Body(container: string, skills: seq<Skill>): string { BEGIN + Introduction(container, Lines(skills)) }

  function Merge(existing: Option<string>, container: string, skills: seq<Skill>): Result<string, ()> {
    MergeBlock(BEGIN, END, Body(container, skills), existing)
  }

  /** The characters that stand between the parts of the block. */
  predicate Separates(c: char) { c == '\n' || c == '`' || c == '/' || c == '*' || c == '—' }

  predicate Quiet(s: string) { forall c <- s :: c != '<' && !Separates(c) }

  lemma QuietJoin(s: string, t: string)
    requires Quiet(s) && Quiet(t)
    ensures Quiet(s + t)
  {
  }

  lemma QuietStem()
    ensures Quiet(STEM)
  {
  }

  lemma QuietBegin()
    ensures Quiet(BEGIN_REST) && BEGIN_REST[0] == 'b'
  {
    var a, b := "begin (managed by ", "distributed skills ";
    assert Quiet(a) && Quiet(b);
    QuietJoin(a, b);
    QuietAdvice();
    QuietJoin(a + b, "init; do not edit ");
    QuietJoin(a + b + "init; do not edit ", "inside) -->");
  }

  lemma QuietAdvice()
    ensures Quiet("init; do not edit ") && Quiet("inside) -->")
  {
  }

  lemma QuietMarker(rest: string)
    requires Quiet(rest)
    ensures Marker(['<'] + rest) && forall c <- ['<'] + rest :: !Separates(c)
  {
    var m := ['<'] + rest;
    assert forall i | 0 < i < |m| :: m[i] == rest[i - 1] && rest[i - 1] in rest;
  }

  /** Two markers that differ after their stem do not contain each other. */
  lemma MarkersDiffer(stem: string, a: string, b: string)
    requires Quiet(stem) && Quiet(a) && Quiet(b) && a != [] && b != [] && a[0] != b[0]
    ensures !Contains(['<'] + (stem + a), ['<'] + (stem + b))
  {
    var m, n := ['<'] + (stem + a), ['<'] + (stem + b);
    QuietJoin(stem, a);
    QuietMarker(stem + a);
    forall i: nat | i <= |m| ensures !Occurs(m, n, i) {
      if Occurs(m, n, i) {
        OccursAt(m, n, i, 0);
        OccursAt(m, n, i, 1 + |stem|);
      }
    }
  }

  lemma SkillMarkers()
    ensures Marker(BEGIN) && Marker(END) && !Contains(BEGIN, END)
    ensures forall c | Separates(c) :: c !in BEGIN && c !in END
  {
    QuietStem();
    QuietBegin();
    QuietJoin(STEM, BEGIN_REST);
    QuietJoin(STEM, END_REST);
    QuietMarker(STEM + BEGIN_REST);
    QuietMarker(STEM + END_REST);
    MarkersDiffer(STEM, BEGIN_REST, END_REST);
  }

  /** Text without the opening character holds no marker, and a leading character that is not it changes nothing. */
  lemma NoOpening(s: string, p: string)
    requires Marker(p) && '<' !in s
    ensures !Contains(s, p)
  {
    forall i: nat | i <= |s| ensures !Occurs(s, p, i) {
      assert i + |p| <= |s| ==> s[i..i + |p|][0] == s[i];
    }
  }

  lemma LeadingCharacter(c: char, s: string, p: string)
    requires Marker(p) && c != '<'
    ensures Contains([c] + s, p) <==> Contains(s, p)
  {
    var t := [c] + s;
    assert t == [c] + s + [];
    if Contains(s, p) {
      var i: nat :| i <= |s| && Occurs(s, p, i);
      OccursWithin([c], s, [], p, i);
    }
    if Contains(t, p) {
      var i: nat :| i <= |t| && Occurs(t, p, i);
      OccursAt(t, p, i, 0);
      OccursWithin([c], s, [], p, i);
    }
  }

  /** What of a skill could hold the closing marker. */
  predicate SkillHolds(skill: Skill, p: string) { Contains(skill.name, p) || Contains(skill.description, p) }

  lemma LineHolds(skill: Skill, tail: string, p: string)
    requires Marker(p) && forall c | Separates(c) :: c !in p
    ensures Contains(Line(skill, tail), p) <==> SkillHolds(skill, p) || Contains(tail, p)
  {
    var d := [' '] + skill.description + (['\n'] + tail);
    var c := "* " + (['—'] + d);
    var b := skill.name + (['*'] + c);
    Apart([' '] + skill.description, '\n', tail, p);
    LeadingCharacter(' ', skill.description, p);
    Apart("* ", '—', d, p);
    Apart(skill.name, '*', c, p);
    Apart("- *", '*', b, p);
    NoOpening("* ", p);
    NoOpening("- *", p);
  }

  lemma {:induction false} LinesHold(skills: seq<Skill>, p: string)
    requires Marker(p) && forall c | Separates(c) :: c !in p
    ensures Contains(Lines(skills), p) <==> exists k <- skills :: SkillHolds(k, p)
  {
    if skills == [] {
      EmptyFree(p);
    } else {
      LineHolds(skills[0], Lines(skills[1..]), p);
      LinesHold(skills[1..], p);
      assert skills == [skills[0]] + skills[1..];
    }
  }

  lemma NotInFour(c: char, s: string, t: string, u: string, v: string)
    requires c !in s && c !in t && c !in u && c !in v
    ensures c !in s + t + u + v
  {
    assert c !in s + t;
    assert c !in s + t + u;
  }

  lemma FixedHeading()
    ensures '<' !in "## Distributed " && '<' !in "framework skills\n\n"
  {
  }

  lemma FixedTitle()
    ensures '<' !in TITLE
  {
    FixedHeading();
    NotInFour('<', "## Distributed ", "framework skills\n\n", "Skills for building ", "services with ");
  }

  lemma FixedAdvice()
    ensures '<' !in ADVICE
  {
    NotInFour('<', "skills/`). Consult ", "the relevant skill ", "before\nscaffolding, ", "CI, or schema work:\n");
  }

  lemma IntroductionHolds(container: string, tail: string, p: string)
    requires Marker(p) && forall c | Separates(c) :: c !in p
    ensures Contains(Introduction(container, tail), p) <==> Contains(container, p) || Contains(tail, p)
  {
    var c := ADVICE + (['\n'] + tail);
    var b := container + (['/'] + c);
    var a := TITLE + (['`'] + b);
    FixedTitle();
    FixedAdvice();
    NoOpening(TITLE, p);
    NoOpening(ADVICE, p);
    Apart(ADVICE, '\n', tail, p);
    Apart(container, '/', c, p);
    Apart(TITLE, '`', b, p);
    LeadingCharacter('\n', a, p);
  }

  /** The body holds the closing marker only if the container's name or a skill's text does. */
  lemma BodyHolds(container: string, skills: seq<Skill>)
    ensures Contains(Body(container, skills), END)
       <==> Contains(container, END) || exists k <- skills :: SkillHolds(k, END)
  {
    SkillMarkers();
    var tail := Lines(skills);
    var rest := TITLE + (['`'] + (container + (['/'] + (ADVICE + (['\n'] + tail)))));
    LinesHold(skills, END);
    IntroductionHolds(container, tail, END);
    LeadingCharacter('\n', rest, END);
    Apart(BEGIN, '\n', rest, END);
  }

  /**
   Merging the result of a merge again is never refused, and changes nothing exactly when
   neither the container's name nor any skill's name or description holds the closing marker.
   */
  lemma SkillsMergeIsStable(existing: Option<string>, container: string, skills: seq<Skill>)
    requires Merge(existing, container, skills).Ok?
    ensures var s := Merge(existing, container, skills).value;
            Merge(Some(s), container, skills).Ok?
            && (Merge(Some(s), container, skills) == Ok(s)
                <==> !Contains(container, END) && forall k <- skills :: !SkillHolds(k, END))
  {
    SkillMarkers();
    assert Separates('\n');
    BodyHolds(container, skills);
    MergeIsStable(BEGIN, END, Body(container, skills), existing);
  }

  /** The block, line by line. */
  method BuildBlock(container: string, skills: seq<Skill>) returns (block: string)
    ensures block == Body(container, skills) + END
  {
    block := AppendLines(BEGIN + Introduction(container, []), skills);
    IntroductionTail(container, Lines(skills));
    assert BEGIN + Introduction(container, []) + Lines(skills) == Body(container, skills);
    block := block + END;
  }

  method AppendLines(head: string, skills: seq<Skill>) returns (block: string)
    ensures block == head + Lines(skills)
  {
    block := head;
    assert skills[0..] == skills;
    for i := 0 to |skills|
      invariant block + Lines(skills[i..]) == head + Lines(skills)
    {
      assert skills[i..][0] == skills[i] && skills[i..][1..] == skills[i + 1..];
      LineTail(skills[i], Lines(skills[i + 1..]));
      assert block + (Line(skills[i], []) + Lines(skills[i + 1..]))
          == block + Line(skills[i], []) + Lines(skills[i + 1..]);
      block := block + Line(skills[i], []);
    }
    assert block + [] == block;
  }

  lemma LineTail(skill: Skill, tail: string)
    ensures Line(skill, tail) == Line(skill, []) + tail
  {
  }

  lemma IntroductionTail(container: string, tail: string)
    ensures Introduction(container, tail) == Introduction(container, []) + tail
  {
  }
}
