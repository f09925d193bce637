/**
 * The pure part of the lesson-to-database script: the course lookup, the
 * lesson id, the quote escaping and the INSERT statement handed to sqlite3.
 */
module LessonDb {
  import opened Wrappers

  type byte = x: int | 0 <= x < 256

  /** The course slugs the script knows, each with its fixed course id. */
  function CourseId(courseSlug: string): (r: Result<string, string>)
    ensures r.Success? <==> courseSlug in ["html", "css", "javascript", "typescript", "react", "git"]
    ensures r.Failure? ==> r.error == "Unknown course: " + courseSlug
    ensures r.Success? ==> |r.value| == 25 && r.value[..2] == "cm"
  {
    match courseSlug
    case "html" => Success("cmlcfcluv0000kwpnu5c6qvzu")
    case "css" => Success("cmlcfclvf0003kwpnqqwhv3pw")
    case "javascript" => Success("cmlcfclvw0006kwpnlrd2pn3p")
    case "typescript" => Success("cmlcfclwd0009kwpnnqdzp611")
    case "react" => Success("cmlcfclwu000bkwpn9e1ddgs1")
    case "git" => Success("cmlcfclxa000dkwpn6fpgzu20")
    case _ => Failure("Unknown course: " + courseSlug)
  }

  /** Two different courses never share an id. */
  lemma CourseIdsDistinct(a: string, b: string)
    requires CourseId(a).Success? && CourseId(b).Success? && a != b
    ensures CourseId(a).value != CourseId(b).value
  {
  }

  // ---- Quote escaping ----

  /**
   * `s.replace(/'/g, "''")`: every single quote doubled, so the result is
   * longer by the number of quotes and a quote-free string passes through.
   */
  function Escape(s: string): (r: string)
    ensures |r| == |s| + QuoteCount(s)
    ensures QuoteFree(s) ==> r == s
  {
    if s == [] then []
    else
      assert s == [s[0]] + s[1..];
      (if s[0] == '\'' then "''" else [s[0]]) + Escape(s[1..])
  }

  function QuoteCount(s: string): nat {
    if s == [] then 0 else (if s[0] == '\'' then 1 else 0) + QuoteCount(s[1..])
  }

  predicate QuoteFree(s: string) {
    forall i :: 0 <= i < |s| ==> s[i] != '\''
  }

  /** The inverse replacement, `''` back to `'`, scanning left to right. */
  function Unescape(s: string): string {
    if s == [] then []
    else if |s| >= 2 && s[0] == '\'' && s[1] == '\'' then "'" + Unescape(s[2..])
    else [s[0]] + Unescape(s[1..])
  }

  lemma {:induction false} UnescapeEscape(s: string)
    ensures Unescape(Escape(s)) == s
  {
    if s != [] {
      var e := Escape(s[1..]);
      UnescapeEscape(s[1..]);
      if s[0] == '\'' {
        assert ("''" + e)[2..] == e;
      } else {
        assert ([s[0]] + e)[1..] == e;
      }
      assert s == [s[0]] + s[1..];
    }
  }

  // ---- How SQLite reads a quoted string ----

  /**
   * Reads the body of a single-quoted SQL literal from s, which starts just
   * after the opening quote: `''` stands for one quote and a lone `'` ends
   * the literal. Gives the literal's value and what follows its closing
   * quote; None when the literal never closes.
   */
  function ReadLiteral(s: string): (r: Option<(string, string)>)
    ensures r.Some? ==> |r.value.1| < |s|
  {
    if s == [] then None
    else if s[0] == '\'' then
      if |s| >= 2 && s[1] == '\'' then
        match ReadLiteral(s[2..])
        case Some((v, rest)) => Some(("'" + v, rest))
        case None => None
      else Some(([], s[1..]))
    else
      match ReadLiteral(s[1..])
      case Some((v, rest)) => Some(([s[0]] + v, rest))
      case None => None
  }

  /** A doubled quote reads as one quote of the literal's value. */
  lemma ReadQuotePair(tail: string, v: string, after: string)
    requires ReadLiteral(tail) == Some((v, after))
    ensures ReadLiteral("''" + tail) == Some(("'" + v, after))
  {
    assert ("''" + tail)[2..] == tail;
  }

  /** Any character but the quote reads as itself. */
  lemma ReadPlainChar(c: char, tail: string, v: string, after: string)
    requires c != '\'' && ReadLiteral(tail) == Some((v, after))
    ensures ReadLiteral([c] + tail) == Some(([c] + v, after))
  {
    assert ([c] + tail)[1..] == tail;
  }

  /** Escaping a non-empty string escapes its first character, then the rest. */
  lemma EscapeCons(x: string, rest: string)
    requires x != []
    ensures Escape(x) + "'" + rest == (if x[0] == '\'' then "''" else [x[0]]) + (Escape(x[1..]) + "'" + rest)
  {
  }

  /** An escaped string between quotes reads back as the original string. */
  lemma {:induction false} ReadEscaped(x: string, rest: string)
    requires rest == [] || rest[0] != '\''
    ensures ReadLiteral(Escape(x) + "'" + rest) == Some((x, rest))
  {
    if x == [] {
      assert Escape(x) + "'" + rest == "'" + rest;
      assert ("'" + rest)[1..] == rest;
    } else {
      var tail := Escape(x[1..]) + "'" + rest;
      ReadEscaped(x[1..], rest);
      EscapeCons(x, rest);
      if x[0] == '\'' {
        ReadQuotePair(tail, x[1..], rest);
      } else {
        ReadPlainChar(x[0], tail, x[1..], rest);
      }
      assert x == [x[0]] + x[1..];
    }
  }

  /** Reads n literals separated by `', '`, the last one followed by rest. */
  function ReadLiterals(s: string, n: nat): Option<(seq<string>, string)>
    requires n > 0
    decreases n
  {
    match ReadLiteral(s)
    case None => None
    case Some((v, rest)) =>
      if n == 1 then Some(([v], rest))
      else if |rest| >= 3 && rest[..3] == ", '" then
        match ReadLiterals(rest[3..], n - 1)
        case None => None
        case Some((vs, rest')) => Some(([v] + vs, rest'))
      else None
  }

  /** One literal followed by `, '` and n - 1 more literals reads as n literals. */
  lemma ReadLiteralsCons(s: string, n: nat, v: string, tail: string, vs: seq<string>, rest: string)
    requires n > 1 && ReadLiteral(s) == Some((v, ", '" + tail))
    requires ReadLiterals(tail, n - 1) == Some((vs, rest))
    ensures ReadLiterals(s, n) == Some(([v] + vs, rest))
  {
    assert (", '" + tail)[..3] == ", '" && (", '" + tail)[3..] == tail;
  }

  /** A run of two or more fields is the first field, a closing quote, `, '` and the rest of the run. */
  lemma FieldRunCons(fs: seq<string>, rest: string)
    requires |fs| > 1
    ensures FieldRun(fs) + rest == fs[0] + "'" + (", '" + (FieldRun(fs[1..]) + rest))
  {
  }

  /** Field texts written as a run of quoted literals: `a', 'b', 'c'` (the opening quote omitted). */
  function FieldRun(fs: seq<string>): string
    requires fs != []
  {
    if |fs| == 1 then fs[0] + "'" else fs[0] + "', '" + FieldRun(fs[1..])
  }

  /** Values escaped and quoted this way read back as exactly those values. */
  lemma {:induction false} ReadFieldRun(fs: seq<string>, xs: seq<string>, rest: string)
    requires xs != [] && |fs| == |xs| && forall i :: 0 <= i < |xs| ==> fs[i] == Escape(xs[i])
    requires rest == [] || rest[0] != '\''
    ensures ReadLiterals(FieldRun(fs) + rest, |xs|) == Some((xs, rest))
    decreases |xs|
  {
    if |xs| == 1 {
      ReadEscaped(xs[0], rest);
      assert [xs[0]] == xs;
    } else {
      var tail := FieldRun(fs[1..]) + rest;
      FieldRunCons(fs, rest);
      ReadEscaped(xs[0], ", '" + tail);
      ReadFieldRun(fs[1..], xs[1..], rest);
      ReadLiteralsCons(FieldRun(fs) + rest, |xs|, xs[0], tail, xs[1..], rest);
      assert [xs[0]] + xs[1..] == xs;
    }
  }

  // ---- The lesson id ----

  /** The base64url alphabet. */
  function Base64Char(i: nat): (c: char)
    requires i < 64
  {
    if i < 26 then 'A' + i as char
    else if i < 52 then 'a' + (i - 26) as char
    else if i < 62 then '0' + (i - 52) as char
    else if i == 62 then '-' else '_'
  }

  /** The position of c in the base64url alphabet, for c in the alphabet. */
  function Base64Index(c: char): nat {
    if 'A' <= c <= 'Z' then c as int - 'A' as int
    else if 'a' <= c <= 'z' then c as int - 'a' as int + 26
    else if '0' <= c <= '9' then c as int - '0' as int + 52
    else if c == '-' then 62 else 63
  }

  predicate IsBase64Char(c: char) {
    'A' <= c <= 'Z' || 'a' <= c <= 'z' || '0' <= c <= '9' || c == '-' || c == '_'
  }

  lemma Base64CharIndex(i: nat)
    requires i < 64
    ensures IsBase64Char(Base64Char(i)) && Base64Index(Base64Char(i)) == i
  {
  }

  /** Three bytes as four characters of six bits each, high bits first. */
  function EncodeGroup(b0: byte, b1: byte, b2: byte): (s: string)
    ensures |s| == 4 && forall i :: 0 <= i < 4 ==> IsBase64Char(s[i])
  {
    var n: nat := b0 as int * 65536 + b1 as int * 256 + b2 as int;
    Base64CharIndex(n / 262144);
    Base64CharIndex(n / 4096 % 64);
    Base64CharIndex(n / 64 % 64);
    Base64CharIndex(n % 64);
    [Base64Char(n / 262144), Base64Char(n / 4096 % 64), Base64Char(n / 64 % 64), Base64Char(n % 64)]
  }

  /** A final one or two bytes, zero-padded to whole characters, with no `=` padding. */
  function EncodeTail(bs: seq<byte>): (s: string)
    requires |bs| < 3
    ensures |s| == if |bs| == 0 then 0 else |bs| + 1
    ensures forall i :: 0 <= i < |s| ==> IsBase64Char(s[i])
  {
    if |bs| == 2 then
      var n: nat := bs[0] as int * 1024 + bs[1] as int * 4;
      Base64CharIndex(n / 4096);
      Base64CharIndex(n / 64 % 64);
      Base64CharIndex(n % 64);
      [Base64Char(n / 4096), Base64Char(n / 64 % 64), Base64Char(n % 64)]
    else if |bs| == 1 then
      var n: nat := bs[0] as int * 16;
      Base64CharIndex(n / 64);
      Base64CharIndex(n % 64);
      [Base64Char(n / 64), Base64Char(n % 64)]
    else []
  }

  /** Buffer.toString('base64url'): base64 with `-` and `_` for `+` and `/`, and no padding. */
  function Base64Url(bs: seq<byte>): (s: string)
    ensures |s| == 4 * (|bs| / 3) + (if |bs| % 3 == 0 then 0 else |bs| % 3 + 1)
    ensures forall i :: 0 <= i < |s| ==> IsBase64Char(s[i])
  {
    if |bs| >= 3 then EncodeGroup(bs[0], bs[1], bs[2]) + Base64Url(bs[3..]) else EncodeTail(bs)
  }

  /** Four characters back to three bytes. */
  function DecodeGroup(s: string): seq<byte>
    requires |s| == 4
  {
    var n := Base64Index(s[0]) * 262144 + Base64Index(s[1]) * 4096 + Base64Index(s[2]) * 64 + Base64Index(s[3]);
    [n / 65536 % 256, n / 256 % 256, n % 256]
  }

  /** Decoding of whole four-character groups. */
  function DecodeGroups(s: string): seq<byte>
    requires |s| % 4 == 0
  {
    if s == [] then [] else DecodeGroup(s[..4]) + DecodeGroups(s[4..])
  }

  lemma GroupDigits(n: nat)
    requires n < 16777216
    ensures (n / 262144) * 262144 + (n / 4096 % 64) * 4096 + (n / 64 % 64) * 64 + n % 64 == n
    ensures n / 262144 < 64
  {
  }

  lemma GroupBytes(b0: byte, b1: byte, b2: byte)
    ensures var n: nat := b0 as int * 65536 + b1 as int * 256 + b2 as int;
      n < 16777216 && n / 65536 % 256 == b0 && n / 256 % 256 == b1 && n % 256 == b2
  {
  }

  lemma DecodeEncodeGroup(b0: byte, b1: byte, b2: byte)
    ensures DecodeGroup(EncodeGroup(b0, b1, b2)) == [b0, b1, b2]
  {
    var n: nat := b0 as int * 65536 + b1 as int * 256 + b2 as int;
    GroupBytes(b0, b1, b2);
    GroupDigits(n);
    Base64CharIndex(n / 262144);
    Base64CharIndex(n / 4096 % 64);
    Base64CharIndex(n / 64 % 64);
    Base64CharIndex(n % 64);
  }

  /** Whole groups decode back to the bytes they encode. */
  lemma {:induction false} DecodeBase64Url(bs: seq<byte>)
    requires |bs| % 3 == 0
    ensures DecodeGroups(Base64Url(bs)) == bs
    decreases |bs|
  {
    if bs != [] {
      DecodeFirstGroup(bs);
      DecodeBase64Url(bs[3..]);
      assert bs == bs[..3] + bs[3..];
    }
  }

  /** The first four characters decode to the first three bytes, the rest to the rest. */
  lemma DecodeFirstGroup(bs: seq<byte>)
    requires |bs| >= 3 && |bs| % 3 == 0
    ensures |Base64Url(bs[3..])| % 4 == 0
    ensures DecodeGroups(Base64Url(bs)) == bs[..3] + DecodeGroups(Base64Url(bs[3..]))
  {
    var g := EncodeGroup(bs[0], bs[1], bs[2]);
    var rest := Base64Url(bs[3..]);
    assert Base64Url(bs) == g + rest;
    var k := |bs[3..]| / 3;
    assert |rest| == 4 * k;
    QuadrupleMod(k);
    DecodeGroupsCons(g, rest);
    DecodeEncodeGroup(bs[0], bs[1], bs[2]);
    assert bs[..3] == [bs[0], bs[1], bs[2]];
  }

  lemma QuadrupleMod(k: nat)
    ensures 4 * k % 4 == 0
  {
  }

  lemma DecodeGroupsCons(g: string, rest: string)
    requires |g| == 4 && |rest| % 4 == 0
    ensures DecodeGroups(g + rest) == DecodeGroup(g) + DecodeGroups(rest)
  {
    assert (g + rest)[..4] == g && (g + rest)[4..] == rest;
  }

  /** generateId, given the twelve random bytes it draws. */
  function GenerateId(random: seq<byte>): (id: string)
    requires |random| == 12
    ensures |id| == 18 && id[..2] == "cm"
    ensures forall i :: 2 <= i < |id| ==> IsBase64Char(id[i])
    ensures QuoteFree(id)
  {
    "cm" + Base64Url(random)
  }

  /** The id determines the random bytes: different draws give different ids. */
  lemma GenerateIdInjective(r1: seq<byte>, r2: seq<byte>)
    requires |r1| == 12 && |r2| == 12 && GenerateId(r1) == GenerateId(r2)
    ensures r1 == r2
  {
    assert GenerateId(r1)[2..] == Base64Url(r1);
    assert GenerateId(r2)[2..] == Base64Url(r2);
    DecodeBase64Url(r1);
    DecodeBase64Url(r2);
  }

  // ---- The INSERT statement ----

  const InsertHead := "INSERT INTO Lesson (id, title, slug, content, \"order\", courseId, createdAt) VALUES ('"

  /** What follows the four quoted fields: the bare order, the course id and the timestamp call. */
  function InsertTail(order: string, courseId: string): string {
    ", " + order + ", '" + courseId + "', datetime('now'));"
  }

  /**
   * The statement written to the temporary SQL file: id, escaped title, slug
   * and escaped content as quoted literals, then the tail. With an id and a
   * slug free of quotes, SQLite reads the four quoted fields back as the id,
   * the title, the slug and the content, whatever quotes the title and
   * content hold, and then the tail.
   */
  function InsertSql(lessonId: string, title: string, lessonSlug: string, content: string, order: string, courseId: string): (r: string)
    ensures |r| >= |InsertHead| && r[..|InsertHead|] == InsertHead
    ensures QuoteFree(lessonId) && QuoteFree(lessonSlug) ==>
      ReadLiterals(r[|InsertHead|..], 4) == Some(([lessonId, title, lessonSlug, content], InsertTail(order, courseId)))
  {
    var fs := [lessonId, Escape(title), lessonSlug, Escape(content)];
    var body := FieldRun(fs) + InsertTail(order, courseId);
    var r := InsertHead + body;
    assert r[..|InsertHead|] == InsertHead && r[|InsertHead|..] == body;
    if QuoteFree(lessonId) && QuoteFree(lessonSlug) then
      ReadFieldRun(fs, [lessonId, title, lessonSlug, content], InsertTail(order, courseId));
      r
    else r
  }

  /**
   * The slug is not escaped: a slug `a'b` ends its literal early, and SQLite
   * reads the slug field as `a`.
   */
  lemma UnescapedSlugBreaksOut(a: string, b: string, rest: string)
    requires QuoteFree(a) && b != [] && b[0] != '\''
    ensures ReadLiteral(a + "'" + b + rest) == Some((a, b + rest))
  {
    assert a + "'" + b + rest == Escape(a) + "'" + (b + rest);
    ReadEscaped(a, b + rest);
  }

  /**
   * addLessonToDB up to the sqlite3 call: fails on an unknown course before
   * anything else, otherwise builds the statement for a fresh id.
   */
  function AddLessonSql(courseSlug: string, lessonSlug: string, title: string, order: string, content: string, random: seq<byte>): (r: Result<string, string>)
    requires |random| == 12
    ensures r.Failure? <==> CourseId(courseSlug).Failure?
    ensures r.Failure? ==> r.error == "Unknown course: " + courseSlug
    ensures r.Success? ==> r.value == InsertSql(GenerateId(random), title, lessonSlug, content, order, CourseId(courseSlug).value)
    ensures r.Success? ==> r.value[..|InsertHead|] == InsertHead
    ensures r.Success? && QuoteFree(lessonSlug) ==>
      ReadLiterals(r.value[|InsertHead|..], 4)
        == Some(([GenerateId(random), title, lessonSlug, content], InsertTail(order, CourseId(courseSlug).value)))
  {
    match CourseId(courseSlug)
    case Failure(e) => Failure(e)
    case Success(courseId) => Success(InsertSql(GenerateId(random), title, lessonSlug, content, order, courseId))
  }
}
