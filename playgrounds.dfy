/**
 * The pure helpers of the two Sandpack playground generators: the markers
 * that say a lesson already has a playground, the lesson title, the prompt's
 * file choice and excerpt, the extraction of the Sandpack block from the
 * model's answer, and the acceptance of an answer (one attempt in the first
 * generator, up to `retries` in the second).
 */
module Playgrounds {
  import opened Wrappers

  // ---- Substrings ----

  /** w occurs in s at position i. */
  predicate IsAt(s: string, i: nat, w: string) {
    i + |w| <= |s| && s[i..i + |w|] == w
  }

  /** Python's `w in s`. */
  predicate Contains(s: string, w: string) {
    exists i :: 0 <= i <= |s| && IsAt(s, i, w)
  }

  predicate StartsWith(s: string, w: string) {
    IsAt(s, 0, w)
  }

  predicate EndsWith(s: string, w: string) {
    |w| <= |s| && s[|s| - |w|..] == w
  }

  /** The first position at or after i where w occurs. */
  function FindFrom(s: string, w: string, i: nat): (r: Option<nat>)
    decreases |s| - i
    ensures r.Some? ==> i <= r.value && IsAt(s, r.value, w)
    ensures forall j :: i <= j && (r.None? || j < r.value) ==> !IsAt(s, j, w)
  {
    if i + |w| > |s| then None
    else if IsAt(s, i, w) then Some(i)
    else FindFrom(s, w, i + 1)
  }

  lemma ContainsInside(a: string, m: string, b: string, w: string)
    requires Contains(m, w)
    ensures Contains(a + m + b, w)
  {
    var i :| 0 <= i <= |m| && IsAt(m, i, w);
    assert (a + m + b)[|a| + i..|a| + i + |w|] == m[i..i + |w|];
    assert IsAt(a + m + b, |a| + i, w);
  }

  // ---- Markers of an existing playground ----

  const Open := "<Sandpack"
  const Header := "## Интерактивный пример"

  /** has_playground of the first generator. */
  predicate HasPlaygroundV1(content: string) {
    Contains(content, Open) || Contains(content, "<Playground")
  }

  /** has_playground of the second generator: the Sandpack tag or the section heading. */
  predicate HasPlaygroundV2(content: string) {
    Contains(content, Open) || Contains(content, Header)
  }

  /** A character of w that s lacks keeps w out of s. */
  lemma LacksChar(s: string, w: string, j: nat)
    requires j < |w| && w[j] !in s
    ensures !Contains(s, w)
  {
    forall i | 0 <= i <= |s|
      ensures !IsAt(s, i, w)
    {
      if i + |w| <= |s| {
        assert s[i..i + |w|][j] == s[i + j] && s[i + j] in s;
      }
    }
  }

  /**
   * The two generators' markers differ. A lesson holding only the heading is
   * skipped by the second generator and not by the first.
   */
  lemma HeadingOnlyMarker()
    ensures HasPlaygroundV2(Header) && !HasPlaygroundV1(Header)
  {
    assert IsAt(Header, 0, Header);
    LacksChar(Header, Open, 0);
    LacksChar(Header, "<Playground", 0);
  }

  /** A lesson holding only `<Playground` is skipped by the first generator and not by the second. */
  lemma PlaygroundOnlyMarker()
    ensures HasPlaygroundV1("<Playground") && !HasPlaygroundV2("<Playground")
  {
    assert IsAt("<Playground", 0, "<Playground");
    LacksChar("<Playground", Open, 1);
    LacksChar("<Playground", Header, 0);
  }

  /** append_playground: the block on its own lines at the end of the lesson file. */
  function AppendPlayground(content: string, block: string): (r: string)
    ensures |r| == |content| + |block| + 2 && r[..|content|] == content
    ensures r[|content|..] == "\n" + block + "\n"
  {
    content + "\n" + block + "\n"
  }

  // ---- Lesson title ----

  /** The text split at each newline; joining the pieces with newlines gives it back. */
  function Lines(s: string): (ls: seq<string>)
    ensures |ls| > 0
    ensures forall k, j :: 0 <= k < |ls| && 0 <= j < |ls[k]| ==> ls[k][j] != '\n'
    decreases |s|
  {
    match FindFrom(s, "\n", 0)
    case None =>
      assert forall j :: 0 <= j < |s| ==> s[j] != '\n' by {
        forall j | 0 <= j < |s| ensures s[j] != '\n' { assert !IsAt(s, j, "\n"); }
      }
      [s]
    case Some(j) =>
      assert forall k :: 0 <= k < j ==> s[k] != '\n' by {
        forall k | 0 <= k < j ensures s[k] != '\n' { assert !IsAt(s, k, "\n"); }
      }
      [s[..j]] + Lines(s[j + 1..])
  }

  function JoinLines(ls: seq<string>): string
    requires |ls| > 0
  {
    if |ls| == 1 then ls[0] else ls[0] + "\n" + JoinLines(ls[1..])
  }

  lemma {:induction false} JoinLinesOfLines(s: string)
    ensures JoinLines(Lines(s)) == s
    decreases |s|
  {
    match FindFrom(s, "\n", 0)
    case None =>
    case Some(j) =>
      JoinLinesOfLines(s[j + 1..]);
      assert s[j..j + 1] == "\n";
      assert s == s[..j] + "\n" + s[j + 1..];
  }

  /** The number of '#' characters a line starts with. */
  function HashCount(line: string): (k: nat)
    ensures k <= |line| && forall j :: 0 <= j < k ==> line[j] == '#'
    ensures k < |line| ==> line[k] != '#'
  {
    if line != [] && line[0] == '#' then 1 + HashCount(line[1..]) else 0
  }

  /** The title a line gives under /^#+ (.+)$/: the rest of the line after the hashes and one space. */
  function LineTitle(line: string): Option<string> {
    var k := HashCount(line);
    if 0 < k && k + 1 < |line| && line[k] == ' ' then Some(line[k + 1..]) else None
  }

  function FirstTitle(ls: seq<string>): Option<string> {
    if ls == [] then None
    else if LineTitle(ls[0]).Some? then LineTitle(ls[0])
    else FirstTitle(ls[1..])
  }

  /**
   * get_lesson_title: "урок" when no line is a heading, else the title of
   * the first heading line.
   */
  function LessonTitle(content: string): (r: string)
    ensures (forall k :: 0 <= k < |Lines(content)| ==> LineTitle(Lines(content)[k]).None?) ==> r == "урок"
    ensures (exists k :: 0 <= k < |Lines(content)| && LineTitle(Lines(content)[k]).Some?) ==>
      exists k :: 0 <= k < |Lines(content)| && LineTitle(Lines(content)[k]) == Some(r)
        && forall k' :: 0 <= k' < k ==> LineTitle(Lines(content)[k']).None?
  {
    var ls := Lines(content);
    FirstTitleIsFirstHeading(ls);
    match FirstTitle(ls)
    case Some(t) =>
      t
    case None => "урок"
  }

  /** The title is the first heading line's title; "урок" exactly when no line is a heading. */
  lemma {:induction false} FirstTitleIsFirstHeading(ls: seq<string>)
    ensures FirstTitle(ls).None? <==> forall k :: 0 <= k < |ls| ==> LineTitle(ls[k]).None?
    ensures FirstTitle(ls).Some? ==> exists k :: (0 <= k < |ls| && FirstTitle(ls) == LineTitle(ls[k])
      && forall k' :: 0 <= k' < k ==> LineTitle(ls[k']).None?)
  {
    if ls != [] && LineTitle(ls[0]).None? {
      FirstTitleIsFirstHeading(ls[1..]);
      assert forall k :: 0 < k < |ls| ==> ls[k] == ls[1..][k - 1];
      if FirstTitle(ls).Some? {
        var k :| (0 <= k < |ls[1..]| && FirstTitle(ls[1..]) == LineTitle(ls[1..][k])
          && forall k' :: 0 <= k' < k ==> LineTitle(ls[1..][k']).None?);
        assert FirstTitle(ls) == LineTitle(ls[k + 1]);
        assert forall k' :: 0 < k' < k + 1 ==> ls[k'] == ls[1..][k' - 1];
      }
    }
  }

  /** A heading title is the non-empty rest of its line: it holds no newline. */
  lemma LineTitleShape(line: string)
    requires LineTitle(line).Some?
    ensures var t := LineTitle(line).value;
      t != [] && |t| < |line| && line[|line| - |t|..] == t && line[|line| - |t| - 1] == ' '
  {
  }

  lemma TitleExamples()
    ensures LineTitle("## Формы") == Some("Формы")
    ensures LineTitle("##Формы") == None
    ensures LineTitle("# ") == None
    ensures LessonTitle("") == "урок"
  {
    assert HashCount("## Формы") == 2 by {
      assert "## Формы"[1..] == "# Формы" && "# Формы"[1..] == " Формы";
    }
    assert HashCount("##Формы") == 2 by {
      assert "##Формы"[1..] == "#Формы" && "#Формы"[1..] == "Формы";
    }
    assert HashCount("# ") == 1 by { assert "# "[1..] == " "; }
    assert FindFrom("", "\n", 0) == None;
    assert LineTitle("") == None;
  }

  // ---- Prompt inputs ----

  /** `content[:n] if len(content) > n else content`. */
  function Excerpt(content: string, n: nat): (r: string)
    ensures |r| == if |content| > n then n else |content|
    ensures r == content[..|r|]
  {
    if |content| > n then content[..n] else content
  }

  /** The single file the second generator asks for. */
  function PromptFile(template: string): (f: string)
    ensures f == "/App.tsx" <==> template == "react"
    ensures template != "react" ==> f == "/index.html"
  {
    if template == "react" then "/App.tsx" else "/index.html"
  }

  /** The file the first generator's files template lists first. */
  function FirstTemplateFile(template: string): string {
    if template == "vanilla" then "/index.html"
    else if template == "vanilla-ts" then "/index.ts"
    else if template == "react" then "/App.tsx"
    else "/index.js"
  }

  /** get_files_template: the `files` skeleton of the first generator's prompt. */
  function FilesTemplate(template: string): (r: string)
    ensures StartsWith(r, "\"" + FirstTemplateFile(template) + "\": `")
  {
    var f := "\"" + FirstTemplateFile(template) + "\": `";
    var r := if template == "vanilla" then
        f + "...html код...`,\n    \"/styles.css\": `...css код...`,\n    \"/index.js\": `...js код...`"
      else if template == "vanilla-ts" then f + "...typescript код...`"
      else if template == "react" then f + "...react код...`"
      else f + "...js код...`";
    assert r[..|f|] == f;
    r
  }

  /** Both generators ask for /App.tsx exactly for the react template. */
  lemma ReactFileAgrees(template: string)
    ensures (PromptFile(template) == "/App.tsx") <==> (FirstTemplateFile(template) == "/App.tsx")
  {
  }

  // ---- Whitespace and str.strip() ----

  /** Python's str.isspace() for one character, which is also what \s matches. */
  predicate IsSpace(c: char) {
    c == ' ' || '\t' <= c <= '\r' || '\U{1C}' <= c <= '\U{1F}' || c == '\U{85}' || c == '\U{A0}'
    || c == '\U{1680}' || '\U{2000}' <= c <= '\U{200A}' || c == '\U{2028}' || c == '\U{2029}'
    || c == '\U{202F}' || c == '\U{205F}' || c == '\U{3000}'
  }

  /** The length of the run of whitespace starting at i. */
  function SpaceRun(s: string, i: nat): (k: nat)
    requires i <= |s|
    decreases |s| - i
    ensures i + k <= |s| && forall j :: i <= j < i + k ==> IsSpace(s[j])
    ensures i + k < |s| ==> !IsSpace(s[i + k])
  {
    if i < |s| && IsSpace(s[i]) then 1 + SpaceRun(s, i + 1) else 0
  }

  function TrimEnd(s: string): (r: string)
    ensures |r| <= |s| && r == s[..|r|] && forall j :: |r| <= j < |s| ==> IsSpace(s[j])
    ensures r != [] ==> !IsSpace(r[|r| - 1])
  {
    if s != [] && IsSpace(s[|s| - 1]) then TrimEnd(s[..|s| - 1]) else s
  }

  /** str.strip(): whitespace removed from both ends. */
  function Strip(s: string): (r: string)
    ensures r != [] ==> !IsSpace(r[0]) && !IsSpace(r[|r| - 1])
    ensures var a := SpaceRun(s, 0);
      a + |r| <= |s| && s[a..a + |r|] == r && forall j :: a + |r| <= j < |s| ==> IsSpace(s[j])
  {
    var a := SpaceRun(s, 0);
    var r := TrimEnd(s[a..]);
    assert s[a..a + |r|] == r;
    r
  }

  /** A string that starts and ends with a non-space character is its own strip. */
  lemma StripKeeps(s: string)
    requires s != [] && !IsSpace(s[0]) && !IsSpace(s[|s| - 1])
    ensures Strip(s) == s
  {
    assert SpaceRun(s, 0) == 0;
    assert s[0..] == s;
  }

  // ---- The Sandpack block ----

  /** The two patterns tried in order: the block with its heading, then the bare tag. */
  datatype Pattern = WithHeader | Bare

  /** "/>" occurs in s at position k. */
  predicate ClosesAt(s: string, k: int) {
    0 <= k && k + 1 < |s| && s[k] == '/' && s[k + 1] == '>'
  }

  lemma EndsWithClose(s: string)
    ensures EndsWith(s, "/>") <==> ClosesAt(s, |s| - 2)
  {
    if |s| >= 2 {
      assert s[|s| - 2..] == [s[|s| - 2], s[|s| - 1]];
    }
  }

  /** The first position at or after i where "/>" occurs. */
  function FindClose(s: string, i: nat): (r: Option<nat>)
    decreases |s| - i
    ensures r.Some? ==> i <= r.value && ClosesAt(s, r.value)
    ensures forall j :: i <= j && (r.None? || j < r.value) ==> !ClosesAt(s, j)
  {
    if i + 2 > |s| then None
    else if ClosesAt(s, i) then Some(i)
    else FindClose(s, i + 1)
  }

  /** Where `<Sandpack[\s\S]*?/>` ends when matched at i: just after the first "/>" past the tag. */
  function TagEnd(s: string, i: nat): (r: Option<nat>)
    ensures r.Some? ==> IsAt(s, i, Open) && i + |Open| + 2 <= r.value <= |s| && ClosesAt(s, r.value - 2)
    ensures r.Some? ==> forall j :: i + |Open| <= j < r.value - 2 ==> !ClosesAt(s, j)
  {
    if !IsAt(s, i, Open) then None
    else
      match FindClose(s, i + |Open|)
      case None => None
      case Some(j) => Some(j + 2)
  }

  /**
   * Where the first pattern ends when matched at i: the heading, whitespace
   * ending in at least one newline, then the tag as above.
   */
  function HeaderEnd(s: string, i: nat): (r: Option<nat>)
    ensures r.Some? ==> IsAt(s, i, Header) && i + |Header| < r.value
  {
    if !IsAt(s, i, Header) then None
    else
      var p := i + |Header|;
      var q := p + SpaceRun(s, p);
      if q > p && s[q - 1] == '\n' then TagEnd(s, q) else None
  }

  function MatchEnd(s: string, pat: Pattern, i: nat): Option<nat> {
    match pat
    case WithHeader => HeaderEnd(s, i)
    case Bare => TagEnd(s, i)
  }

  /** re.search: the leftmost position at or after i where the pattern matches, and where the match ends. */
  function Search(s: string, pat: Pattern, i: nat): (r: Option<(nat, nat)>)
    decreases |s| + 1 - i
    ensures r.Some? ==> i <= r.value.0 && MatchEnd(s, pat, r.value.0) == Some(r.value.1)
    ensures r.Some? ==> r.value.0 < r.value.1 <= |s|
    ensures forall j :: i <= j && (r.None? || j < r.value.0) ==> MatchEnd(s, pat, j).None?
  {
    if i > |s| then
      assert forall j :: j >= i ==> MatchEnd(s, pat, j).None?;
      None
    else
      match MatchEnd(s, pat, i)
      case Some(e) => Some((i, e))
      case None => Search(s, pat, i + 1)
  }

  /** No "/>" anywhere in s except as its last two characters. */
  predicate ClosesOnlyAtEnd(s: string) {
    forall k :: 0 <= k < |s| - 2 ==> !ClosesAt(s, k)
  }

  /** The blank line and the heading that start every extracted block. */
  const Lead := "\n\n" + Header

  /** What goes in front of a bare tag: the lead, then a blank line. */
  const BarePrefix := Lead + "\n\n"

  /** What the extractor keeps of a match, with its heading added when it has none. */
  predicate BlockShape(b: string) {
    StartsWith(b, Lead) && Contains(b, Open) && EndsWith(b, "/>") && ClosesOnlyAtEnd(b)
  }

  /** The tag's match: "<Sandpack", then everything up to and including the first "/>". */
  lemma TagShape(s: string, q: nat, e: nat)
    requires TagEnd(s, q) == Some(e)
    ensures var m := s[q..e];
      StartsWith(m, Open) && ClosesAt(m, |m| - 2) && ClosesOnlyAtEnd(m)
  {
    var m := s[q..e];
    assert m[..|Open|] == s[q..q + |Open|];
    assert forall k :: 0 <= k < |Open| ==> Open[k] != '/';
    forall k | 0 <= k < |m| - 2
      ensures !ClosesAt(m, k)
    {
      if k < |Open| {
        assert m[k] == s[q..q + |Open|][k] == Open[k];
      } else {
        assert !ClosesAt(s, q + k);
      }
    }
  }

  lemma StartsWithContains(s: string, w: string)
    requires StartsWith(s, w)
    ensures Contains(s, w)
  {
  }

  /** The heading and the whitespace before the tag hold no '/'. */
  lemma HeaderRunHasNoSlash(s: string, i: nat)
    requires IsAt(s, i, Header)
    ensures var q := i + |Header| + SpaceRun(s, i + |Header|);
      forall k :: i <= k < q ==> s[k] != '/'
  {
    var p := i + |Header|;
    assert '/' !in Header;
    forall k | i <= k < p ensures s[k] != '/' {
      assert s[k] == s[i..p][k - i] == Header[k - i];
      assert Header[k - i] in Header;
    }
  }

  /** Text without '/' put in front of a closed tag keeps its single "/>" at the end. */
  lemma JoinShape(a: string, b: string)
    requires forall k :: 0 <= k < |a| ==> a[k] != '/'
    requires Contains(b, Open) && ClosesAt(b, |b| - 2) && ClosesOnlyAtEnd(b)
    ensures var s := a + b;
      Contains(s, Open) && ClosesAt(s, |s| - 2) && ClosesOnlyAtEnd(s) && s[..|a|] == a
  {
    var s := a + b;
    forall k | 0 <= k < |s| - 2
      ensures !ClosesAt(s, k)
    {
      if k >= |a| {
        assert s[k] == b[k - |a|] && s[k + 1] == b[k + 1 - |a|];
        assert !ClosesAt(b, k - |a|);
      } else {
        assert s[k] == a[k];
      }
    }
    ContainsInside(a, b, "", Open);
    assert a + b + "" == s;
  }

  /** A run without '/' followed by a tag's match, cut out of s, keeps the tag's shape. */
  lemma RunThenTagShape(s: string, i: nat, q: nat, e: nat)
    requires i <= q && TagEnd(s, q) == Some(e)
    requires forall k :: i <= k < q ==> s[k] != '/'
    ensures var m := s[i..e];
      Contains(m, Open) && ClosesAt(m, |m| - 2) && ClosesOnlyAtEnd(m) && m[..q - i] == s[i..q]
  {
    var a, b := s[i..q], s[q..e];
    TagShape(s, q, e);
    StartsWithContains(b, Open);
    assert forall k :: 0 <= k < |a| ==> a[k] == s[i + k];
    JoinShape(a, b);
    assert a + b == s[i..e];
  }

  /** A match of the first pattern: the heading, then the tag's match. */
  lemma HeaderMatchShape(s: string, i: nat, e: nat)
    requires HeaderEnd(s, i) == Some(e)
    ensures var m := s[i..e];
      StartsWith(m, Header) && Contains(m, Open) && ClosesAt(m, |m| - 2) && ClosesOnlyAtEnd(m)
  {
    var q := i + |Header| + SpaceRun(s, i + |Header|);
    assert TagEnd(s, q) == Some(e);
    HeaderRunHasNoSlash(s, i);
    RunThenTagShape(s, i, q, e);
    assert s[i..e][..|Header|] == s[i..q][..|Header|] == s[i..i + |Header|];
  }

  /**
   * What a matched text looks like: the tag's opening, a single "/>" at its
   * end, no outer whitespace, and the heading exactly when the first pattern matched.
   */
  lemma MatchShape(s: string, pat: Pattern, i: nat, e: nat)
    requires MatchEnd(s, pat, i) == Some(e)
    ensures var m := s[i..e];
      Contains(m, Open) && EndsWith(m, "/>") && ClosesAt(m, |m| - 2) && ClosesOnlyAtEnd(m)
      && !IsSpace(m[0]) && !IsSpace(m[|m| - 1])
      && (pat == WithHeader ==> StartsWith(m, Header))
      && (StartsWith(m, "##") <==> pat == WithHeader)
  {
    var m := s[i..e];
    if pat == WithHeader {
      HeaderMatchShape(s, i, e);
      HeaderStartsWithHashes(m);
      assert m[0] == Header[0];
    } else {
      TagShape(s, i, e);
      StartsWithContains(m, Open);
      assert m[0] == Open[0] && m[..2] == Open[..2];
    }
    EndsWithClose(m);
  }

  /** The block is returned after "\n\n", with the heading put in front of a bare tag. */
  function Finish(m: string): string {
    Frame(Strip(m))
  }

  /** The stripped block after a blank line, its heading put in front when it has none. */
  function Frame(block: string): string {
    if StartsWith(block, "##") then "\n\n" + block else BarePrefix + block
  }

  /** Where the tag's own match starts inside a match of the pattern at i. */
  function TagStart(s: string, pat: Pattern, i: nat): nat
    requires i <= |s|
  {
    match pat
    case WithHeader => if i + |Header| <= |s| then i + |Header| + SpaceRun(s, i + |Header|) else i
    case Bare => i
  }

  /** The tag's own match ends where the whole match ends. */
  lemma MatchTagEnd(s: string, pat: Pattern, i: nat, e: nat)
    requires MatchEnd(s, pat, i) == Some(e)
    ensures i <= TagStart(s, pat, i) && TagEnd(s, TagStart(s, pat, i)) == Some(e)
  {
  }

  /** A text put after a prefix ends with every tail of itself. */
  lemma EndsWithTail(a: string, m: string, k: nat)
    requires k <= |m|
    ensures EndsWith(a + m, m[k..])
  {
    assert (a + m)[|a| + k..] == m[k..];
  }

  /** The finished block ends with the tag's match exactly as it stands in s. */
  lemma FinishEndsWithTag(s: string, pat: Pattern, i: nat, e: nat)
    requires MatchEnd(s, pat, i) == Some(e)
    ensures i <= TagStart(s, pat, i) && TagEnd(s, TagStart(s, pat, i)) == Some(e)
    ensures EndsWith(Finish(s[i..e]), s[TagStart(s, pat, i)..e])
  {
    var q := TagStart(s, pat, i);
    var m := s[i..e];
    MatchTagEnd(s, pat, i, e);
    MatchShape(s, pat, i, e);
    StripKeeps(m);
    EndsWithTail(if StartsWith(m, "##") then "\n\n" else BarePrefix, m, q - i);
    assert m[q - i..] == s[q..e];
  }

  /** The finished block is the match itself after a blank line, with the heading added to a bare tag. */
  lemma FinishFrames(s: string, pat: Pattern, i: nat, e: nat)
    requires MatchEnd(s, pat, i) == Some(e)
    ensures Finish(s[i..e]) == (if pat == WithHeader then "\n\n" else BarePrefix) + s[i..e]
  {
    MatchShape(s, pat, i, e);
    StripKeeps(s[i..e]);
  }

  /**
   * extract_sandpack_block of the first generator, applied to the answer
   * once its code fences are removed: a block is returned exactly when some
   * `<Sandpack` is followed by "/>"; it starts with the heading, holds the
   * tag and ends at the first "/>" after the tag, and it ends with a tag's
   * match cut from the stripped answer, the leftmost one when no heading
   * pattern matches.
   */
  function ExtractV1(text: string): (r: Option<string>)
    ensures r.Some? <==> Search(Strip(text), Bare, 0).Some?
    ensures r.Some? ==> BlockShape(r.value)
    ensures r.Some? ==> exists q: nat, e: nat ::
      q <= e <= |Strip(text)| && TagEnd(Strip(text), q) == Some(e) && EndsWith(r.value, Strip(text)[q..e])
    ensures r.Some? && Search(Strip(text), WithHeader, 0).None? ==>
      var (i, e) := Search(Strip(text), Bare, 0).value;
      EndsWith(r.value, Strip(text)[i..e]) && r.value == BarePrefix + Strip(text)[i..e]
    ensures Search(Strip(text), WithHeader, 0).Some? ==>
      var (i, e) := Search(Strip(text), WithHeader, 0).value;
      r == Some("\n\n" + Strip(text)[i..e])
  {
    var t := Strip(text);
    match Search(t, WithHeader, 0)
    case Some((i, e)) =>
      FinishShape(t, WithHeader, i, e);
      HeaderMatchHasTag(t, i, e);
      FinishEndsWithTag(t, WithHeader, i, e);
      FinishFrames(t, WithHeader, i, e);
      Some(Finish(t[i..e]))
    case None =>
      match Search(t, Bare, 0)
      case Some((i, e)) =>
        FinishShape(t, Bare, i, e);
        FinishEndsWithTag(t, Bare, i, e);
        FinishFrames(t, Bare, i, e);
        Some(Finish(t[i..e]))
      case None => None
  }

  /**
   * extract_sandpack_block of the second generator: the same, with a check
   * that the block ends in "/>". The check never fails, so both extractors
   * return the same.
   */
  function ExtractV2(text: string): (r: Option<string>)
    ensures r == ExtractV1(text)
  {
    var t := Strip(text);
    match Search(t, WithHeader, 0)
    case Some((i, e)) =>
      MatchShape(t, WithHeader, i, e);
      StripKeeps(t[i..e]);
      var block := Strip(t[i..e]);
      if !EndsWith(block, "/>") then None else Some(Finish(t[i..e]))
    case None =>
      match Search(t, Bare, 0)
      case Some((i, e)) =>
        MatchShape(t, Bare, i, e);
        StripKeeps(t[i..e]);
        var block := Strip(t[i..e]);
        if !EndsWith(block, "/>") then None else Some(Finish(t[i..e]))
      case None => None
  }

  /** The heading and the blank lines the extractor puts in front of a bare tag hold no '/'. */
  lemma HeadingPrefixHasNoSlash()
    ensures BarePrefix[..|Lead|] == Lead
    ensures forall k :: 0 <= k < |BarePrefix| ==> BarePrefix[k] != '/'
  {
    var p := BarePrefix;
    assert '/' !in p;
    forall k | 0 <= k < |p| ensures p[k] != '/' {
      assert p[k] in p;
    }
  }

  /** A match that has its heading is kept as it is, after a blank line. */
  lemma FrameHeaded(m: string)
    requires StartsWith(m, Header) && Contains(m, Open) && ClosesAt(m, |m| - 2) && ClosesOnlyAtEnd(m)
    ensures BlockShape(Frame(m))
  {
    HeaderStartsWithHashes(m);
    var r := "\n\n" + m;
    PrefixThenStart("\n\n", m, Header);
    assert forall k :: 0 <= k < 2 ==> "\n\n"[k] != '/';
    JoinShape("\n\n", m);
    EndsWithClose(r);
  }

  lemma HeaderStartsWithHashes(m: string)
    requires StartsWith(m, Header)
    ensures StartsWith(m, "##")
  {
    assert m[..2] == Header[..2];
  }

  /** A text that starts with w, put after a, starts with a + w. */
  lemma PrefixThenStart(a: string, m: string, w: string)
    requires StartsWith(m, w)
    ensures StartsWith(a + m, a + w)
  {
    assert (a + m)[..|a| + |w|] == a + m[..|w|];
  }


  /** A bare tag gets the heading put in front of it. */
  lemma FrameBare(m: string)
    requires !StartsWith(m, "##") && Contains(m, Open) && ClosesAt(m, |m| - 2) && ClosesOnlyAtEnd(m)
    ensures BlockShape(Frame(m))
  {
    var r := BarePrefix + m;
    HeadingPrefixHasNoSlash();
    JoinShape(BarePrefix, m);
    assert r[..|Lead|] == BarePrefix[..|Lead|];
    EndsWithClose(r);
  }

  /** A finished match has the block's shape. */
  lemma FinishShape(s: string, pat: Pattern, i: nat, e: nat)
    requires MatchEnd(s, pat, i) == Some(e)
    ensures BlockShape(Finish(s[i..e]))
  {
    var m := s[i..e];
    MatchShape(s, pat, i, e);
    StripKeeps(m);
    if pat == WithHeader {
      FrameHeaded(m);
    } else {
      FrameBare(m);
    }
  }

  /** A match of the heading pattern holds a match of the bare tag, so the bare search succeeds too. */
  lemma HeaderMatchHasTag(s: string, i: nat, e: nat)
    requires HeaderEnd(s, i) == Some(e)
    ensures Search(s, Bare, 0).Some?
  {
    var q := i + |Header| + SpaceRun(s, i + |Header|);
    assert TagEnd(s, q) == Some(e);
    assert MatchEnd(s, Bare, q).Some?;
  }

  /** A lesson given an extracted block is skipped by both generators on their next run. */
  lemma AppendedBlockIsSeen(content: string, text: string)
    requires ExtractV1(text).Some?
    ensures HasPlaygroundV1(AppendPlayground(content, ExtractV1(text).value))
    ensures HasPlaygroundV2(AppendPlayground(content, ExtractV1(text).value))
  {
    var b := ExtractV1(text).value;
    ContainsInside(content + "\n", b, "\n", Open);
    assert AppendPlayground(content, b) == (content + "\n") + b + "\n";
  }

  lemma ExtractExamples()
    ensures ExtractV1("") == None
  {
    assert Strip("") == "";
  }

  // ---- Accepting an answer ----

  /** The model's answer to one call, fences removed; None when the call raised. */
  type Answer = Option<string>

  /**
   * generate_playground of the first generator: one call, kept when the
   * block holds the tag. That check is redundant: the extracted block is
   * kept exactly as extracted.
   */
  function GenerateV1(answer: Answer): (r: Option<string>)
    ensures answer.None? ==> r.None?
    ensures answer.Some? ==> r == ExtractV1(answer.value)
  {
    match answer
    case None => None
    case Some(text) =>
      var block := ExtractV1(text);
      if block.Some? then
        BlockShapeNonEmpty(block.value);
        if block.value != [] && Contains(block.value, Open) then block else None
      else None
  }

  /** A block of the extractor's shape passes both generators' checks. */
  lemma BlockShapeNonEmpty(b: string)
    requires BlockShape(b)
    ensures b != [] && Contains(b, Open) && EndsWith(b, "/>")
  {
    assert |Lead| > 0;
  }

  /**
   * One attempt of the second generator: the block when it is complete,
   * else nothing. Its checks are redundant too: it keeps the extracted
   * block, which is what the first generator keeps, and that block has the
   * extractor's shape.
   */
  function Attempt(answer: Answer): (r: Option<string>)
    ensures answer.None? ==> r.None?
    ensures answer.Some? ==> r == ExtractV1(answer.value)
    ensures r == GenerateV1(answer)
    ensures r.Some? ==> BlockShape(r.value)
  {
    match answer
    case None => None
    case Some(text) =>
      var block := ExtractV2(text);
      if block.Some? then
        BlockShapeNonEmpty(block.value);
        if block.value != [] && Contains(block.value, Open) && EndsWith(block.value, "/>") then block else None
      else None
  }

  /** The first of the first n outcomes that holds a block. */
  function FirstSome(outcomes: seq<Option<string>>, n: nat): (r: Option<string>)
    requires n <= |outcomes|
    ensures r.Some? ==> exists k :: (0 <= k < n && outcomes[k] == r
      && forall j :: 0 <= j < k ==> outcomes[j].None?)
    ensures r.None? <==> forall k :: 0 <= k < n ==> outcomes[k].None?
  {
    if n == 0 then None
    else if FirstSome(outcomes, n - 1).Some? then FirstSome(outcomes, n - 1)
    else outcomes[n - 1]
  }

  /** Once an outcome among the first n holds a block, later ones do not matter. */
  lemma {:induction false} FirstSomeSettles(outcomes: seq<Option<string>>, n: nat, m: nat)
    requires n <= m <= |outcomes| && FirstSome(outcomes, n).Some?
    ensures FirstSome(outcomes, m) == FirstSome(outcomes, n)
    decreases m - n
  {
    if m > n {
      FirstSomeSettles(outcomes, n, m - 1);
    }
  }

  /** The outcome of each attempt, attempt i answered by answers[i]. */
  function Outcomes(answers: seq<Answer>): (os: seq<Option<string>>)
    ensures |os| == |answers| && forall k :: 0 <= k < |answers| ==> os[k] == Attempt(answers[k])
  {
    seq(|answers|, k requires 0 <= k < |answers| => Attempt(answers[k]))
  }

  /**
   * generate_playground of the second generator: up to `retries` calls, the
   * i-th answered by answers[i]; returns the first complete block and the
   * number of calls made.
   */
  method GenerateV2(answers: seq<Answer>, retries: nat) returns (r: Option<string>, calls: nat)
    requires |answers| >= retries
    ensures r == FirstSome(Outcomes(answers), retries)
    ensures calls <= retries
    ensures r.Some? ==> 0 < calls && r == Attempt(answers[calls - 1]) && FirstSome(Outcomes(answers), calls - 1).None?
    ensures r.None? ==> calls == retries
  {
    ghost var os := Outcomes(answers);
    calls := 0;
    r := None;
    for attempt := 0 to retries
      invariant calls == attempt
      invariant FirstSome(os, attempt).None?
    {
      calls := calls + 1;
      var block := Attempt(answers[attempt]);
      if block.Some? {
        r := block;
        assert FirstSome(os, attempt + 1) == block;
        FirstSomeSettles(os, attempt + 1, retries);
        return;
      }
    }
  }
}
