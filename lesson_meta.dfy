/**
 * The lesson numbering of the lesson generator: a category's `_meta.json`
 * maps lesson slugs to labels "N. Title"; a new lesson gets the number one
 * above the largest leading number found among the labels, and is written
 * under its slug.
 */
module LessonMeta {
  import opened Wrappers

  /** One key of the JSON object, with its (string) value. */
  datatype Entry = Entry(key: string, value: string)

  /** The parsed `_meta.json` object, its keys in insertion order. */
  type Meta = seq<Entry>

  predicate IsDigit(c: char) {
    '0' <= c <= '9'
  }

  predicate AllDigits(s: string) {
    forall i :: 0 <= i < |s| ==> IsDigit(s[i])
  }

  /** The length of the longest run of digits at the start of s. */
  function DigitCount(s: string): (k: nat)
    ensures k <= |s| && AllDigits(s[..k])
    ensures k < |s| ==> !IsDigit(s[k])
  {
    if s != [] && IsDigit(s[0]) then
      var k := 1 + DigitCount(s[1..]);
      assert s[..k] == [s[0]] + s[1..][..k - 1];
      k
    else 0
  }

  function DigitValue(c: char): nat
    requires IsDigit(c)
  {
    c as int - '0' as int
  }

  /** parseInt of a run of decimal digits. */
  function DecimalValue(s: string): nat
    requires AllDigits(s)
  {
    if s == [] then 0 else 10 * DecimalValue(s[..|s| - 1]) + DigitValue(s[|s| - 1])
  }

  /** The decimal numeral of n, as a template literal prints it. */
  function Show(n: nat): (s: string)
    ensures s != [] && AllDigits(s)
  {
    var d := ['0' + ((n % 10) as char)];
    if n < 10 then d else Show(n / 10) + d
  }

  /**
   * The number in a label that matches /^(\d+)\./, as parseInt reads it;
   * 0 for a label without such a prefix.
   */
  function LeadingNumber(v: string): (n: nat)
    ensures n > 0 ==> exists k :: 0 < k < |v| && AllDigits(v[..k]) && v[k] == '.'
    ensures v == [] || !IsDigit(v[0]) ==> n == 0
  {
    var k := DigitCount(v);
    if 0 < k < |v| && v[k] == '.' then DecimalValue(v[..k]) else 0
  }

  /** The label written for lesson number n: it reads back as n, whatever the title, and ends with the title. */
  function Label(n: nat, title: string): (r: string)
    ensures LeadingNumber(r) == n
    ensures |r| >= |title| && r[|r| - |title|..] == title
  {
    NumberedReadsBack(n, title);
    Show(n) + ". " + title
  }

  /** The leading numbers of the labels, in key order, with the zeros filtered out. */
  function Numbers(m: Meta): (ns: seq<nat>)
    ensures forall x :: x in ns ==> x > 0
    ensures forall x :: x in ns <==> x > 0 && exists i :: 0 <= i < |m| && LeadingNumber(m[i].value) == x
  {
    if m == [] then []
    else
      var rest := Numbers(m[1..]);
      assert forall i :: 0 < i < |m| ==> m[i] == m[1..][i - 1];
      assert forall i :: 0 <= i < |m| - 1 ==> m[1..][i] == m[i + 1];
      var n := LeadingNumber(m[0].value);
      if n > 0 then [n] + rest else rest
  }

  /** Math.max over a non-empty list. */
  function MaxOf(s: seq<nat>): (r: nat)
    requires s != []
    ensures r in s && forall x :: x in s ==> x <= r
  {
    if |s| == 1 then s[0]
    else
      var r := MaxOf(s[1..]);
      assert forall x :: x in s ==> x == s[0] || x in s[1..];
      if s[0] > r then s[0] else r
  }

  /** The number the next lesson gets. */
  function NextNumber(m: Meta): (n: nat)
    ensures n >= 1
    ensures forall i :: 0 <= i < |m| ==> LeadingNumber(m[i].value) < n
    ensures n == 1 <==> forall i :: 0 <= i < |m| ==> LeadingNumber(m[i].value) == 0
    ensures n > 1 ==> exists i :: 0 <= i < |m| && LeadingNumber(m[i].value) == n - 1
  {
    var ns := Numbers(m);
    if |ns| > 0 then
      var n := MaxOf(ns) + 1;
      assert forall i :: 0 <= i < |m| && LeadingNumber(m[i].value) > 0 ==> LeadingNumber(m[i].value) in ns;
      assert ns[0] in ns;
      n
    else
      assert forall i :: 0 <= i < |m| ==> LeadingNumber(m[i].value) !in ns;
      1
  }

  function Keys(m: Meta): (ks: seq<string>)
    ensures |ks| == |m| && forall i :: 0 <= i < |m| ==> ks[i] == m[i].key
  {
    if m == [] then [] else [m[0].key] + Keys(m[1..])
  }

  /** No key occurs twice, as in any object JSON.parse returns. */
  predicate DistinctKeys(m: Meta) {
    forall i, j :: 0 <= i < j < |m| ==> m[i].key != m[j].key
  }

  /** Property lookup: the value stored under key k, if any. */
  function Lookup(m: Meta, k: string): (r: Option<string>)
    ensures r.Some? <==> k in Keys(m)
    ensures r.Some? ==> exists i :: 0 <= i < |m| && m[i] == Entry(k, r.value)
  {
    if m == [] then None
    else if m[0].key == k then Some(m[0].value)
    else
      assert Keys(m) == [m[0].key] + Keys(m[1..]);
      var r := Lookup(m[1..], k);
      assert r.Some? ==> exists i :: 0 <= i < |m| && m[i] == Entry(k, r.value) by {
        if r.Some? {
          var i :| 0 <= i < |m[1..]| && m[1..][i] == Entry(k, r.value);
          assert m[i + 1] == Entry(k, r.value);
        }
      }
      r
  }

  /**
   * Property assignment `m[k] = v`: an existing key keeps its place and
   * takes the new value; a new key goes at the end.
   */
  function Put(m: Meta, k: string, v: string): (r: Meta)
    ensures Keys(r) == if k in Keys(m) then Keys(m) else Keys(m) + [k]
  {
    if m == [] then [Entry(k, v)]
    else if m[0].key == k then [Entry(k, v)] + m[1..]
    else
      var rest := Put(m[1..], k, v);
      assert Keys(m) == [m[0].key] + Keys(m[1..]);
      assert ([m[0]] + rest)[1..] == rest;
      [m[0]] + rest
  }

  lemma DistinctTail(m: Meta)
    requires m != [] && DistinctKeys(m)
    ensures DistinctKeys(m[1..])
  {
    forall i, j | 0 <= i < j < |m[1..]| ensures m[1..][i].key != m[1..][j].key {
      assert m[1..][i] == m[i + 1] && m[1..][j] == m[j + 1];
    }
  }

  /** Every entry of r without key k is the entry of m at the same place; every entry with key k holds v. */
  predicate KeepsOthers(m: Meta, r: Meta, k: string, v: string) {
    && (forall i :: 0 <= i < |r| && r[i].key != k ==> i < |m| && r[i] == m[i])
    && (forall i :: 0 <= i < |r| && r[i].key == k ==> r[i].value == v)
  }

  /** After the assignment k holds v, and every other entry is where and what it was. */
  lemma {:induction false} PutEntries(m: Meta, k: string, v: string)
    requires DistinctKeys(m)
    ensures KeepsOthers(m, Put(m, k, v), k, v)
  {
    if m == [] {
      assert Put(m, k, v) == [Entry(k, v)];
    } else if m[0].key == k {
      PutEntriesHere(m, k, v);
    } else {
      DistinctTail(m);
      PutEntries(m[1..], k, v);
      PutEntriesLater(m, k, v);
    }
  }

  lemma PutEntriesHere(m: Meta, k: string, v: string)
    requires DistinctKeys(m) && m != [] && m[0].key == k
    ensures KeepsOthers(m, Put(m, k, v), k, v)
  {
    var r := Put(m, k, v);
    assert r == [Entry(k, v)] + m[1..];
    assert forall i :: 0 < i < |r| ==> r[i] == m[i] && m[i].key != k;
  }

  lemma PutEntriesLater(m: Meta, k: string, v: string)
    requires m != [] && m[0].key != k && KeepsOthers(m[1..], Put(m[1..], k, v), k, v)
    ensures KeepsOthers(m, Put(m, k, v), k, v)
  {
    var r, r' := Put(m, k, v), Put(m[1..], k, v);
    assert r == [m[0]] + r';
    forall i | 0 <= i < |r| && r[i].key != k ensures i < |m| && r[i] == m[i] {
      if i > 0 {
        assert r[i] == r'[i - 1] && r'[i - 1] == m[1..][i - 1];
      }
    }
    forall i | 0 <= i < |r| && r[i].key == k ensures r[i].value == v {
      assert r[i] == r'[i - 1];
    }
  }

  /** After the assignment some entry has key k. */
  lemma PutHasKey(m: Meta, k: string, v: string)
    ensures exists j :: 0 <= j < |Put(m, k, v)| && Put(m, k, v)[j].key == k
  {
    var ks := Keys(Put(m, k, v));
    assert k in ks;
    var j :| 0 <= j < |ks| && ks[j] == k;
  }

  /** The assignment keeps the keys distinct. */
  lemma PutDistinct(m: Meta, k: string, v: string)
    requires DistinctKeys(m)
    ensures DistinctKeys(Put(m, k, v))
  {
    var r := Put(m, k, v);
    forall i, j | 0 <= i < j < |r| ensures r[i].key != r[j].key {
      assert r[i].key == Keys(r)[i] && r[j].key == Keys(r)[j];
      if j < |m| {
        assert Keys(m)[i] == m[i].key && Keys(m)[j] == m[j].key;
      } else {
        assert Keys(m)[i] == m[i].key;
      }
    }
  }

  /** Reading back after the assignment: v under k, the old value under every other key. */
  lemma {:induction false} PutLookup(m: Meta, k: string, v: string)
    ensures Lookup(Put(m, k, v), k) == Some(v)
    ensures forall k' :: k' != k ==> Lookup(Put(m, k, v), k') == Lookup(m, k')
  {
    if m != [] && m[0].key != k {
      PutLookup(m[1..], k, v);
    }
  }

  /**
   * updateMetaJson on the parsed object: the new lesson's label, numbered one
   * above the others, is stored under its slug; every other key keeps its
   * value and place, and a new slug goes last.
   */
  function AddLesson(m: Meta, slug: string, title: string): (r: Meta)
    ensures Lookup(r, slug) == Some(Label(NextNumber(m), title))
    ensures forall k :: k != slug ==> Lookup(r, k) == Lookup(m, k)
    ensures Keys(r) == if slug in Keys(m) then Keys(m) else Keys(m) + [slug]
  {
    PutLookup(m, slug, Label(NextNumber(m), title));
    Put(m, slug, Label(NextNumber(m), title))
  }

  lemma DigitCountOfDigitsThenOther(ds: string, rest: string)
    requires AllDigits(ds) && rest != [] && !IsDigit(rest[0])
    ensures DigitCount(ds + rest) == |ds|
  {
    var s := ds + rest;
    var k := DigitCount(s);
    assert forall i :: 0 <= i < k ==> IsDigit(s[i]) by {
      forall i | 0 <= i < k ensures IsDigit(s[i]) {
        assert s[..k][i] == s[i];
      }
    }
    assert s[|ds|] == rest[0];
    assert forall i :: 0 <= i < |ds| ==> s[i] == ds[i];
  }


  lemma {:induction false} DecimalValueOfShow(n: nat)
    ensures DecimalValue(Show(n)) == n
  {
    var d := ['0' + ((n % 10) as char)];
    if n >= 10 {
      var s := Show(n / 10) + d;
      assert s[..|s| - 1] == Show(n / 10);
      DecimalValueOfShow(n / 10);
    }
  }

  /** The numeral of n, a dot, a space and a title read back as n. */
  lemma NumberedReadsBack(n: nat, title: string)
    ensures LeadingNumber(Show(n) + ". " + title) == n
  {
    var s := Show(n) + ". " + title;
    assert s == Show(n) + (". " + title);
    DigitCountOfDigitsThenOther(Show(n), ". " + title);
    assert s[..|Show(n)|] == Show(n);
    DecimalValueOfShow(n);
  }

  /** A label "0. …" carries no number: zeros are filtered out. */
  lemma ZeroLabelDoesNotCount(title: string)
    ensures LeadingNumber("0. " + title) == 0
  {
    assert "0. " + title == Show(0) + ". " + title;
    assert Label(0, title) == Show(0) + ". " + title;
  }

  /** "12.Intro" counts as 12 even without the space; "12 Intro" and "Intro" count as nothing. */
  lemma LeadingNumberExamples()
    ensures LeadingNumber("12.Intro") == 12
    ensures LeadingNumber("12 Intro") == 0
    ensures LeadingNumber("Intro") == 0
  {
    assert DigitCount("12.Intro") == 2 by {
      DigitCountOfDigitsThenOther("12", ".Intro");
      assert "12" + ".Intro" == "12.Intro";
    }
    assert "12.Intro"[..2] == "12" && "12"[..1] == "1" && "1"[..0] == "";
    assert DigitCount("12 Intro") == 2 by {
      DigitCountOfDigitsThenOther("12", " Intro");
      assert "12" + " Intro" == "12 Intro";
    }
  }

  /** The next number is the one above the highest leading number, and 1 when there is none. */
  lemma NextNumberIs(m: Meta, n: nat)
    requires n >= 1 && forall i :: 0 <= i < |m| ==> LeadingNumber(m[i].value) < n
    requires n > 1 ==> exists i :: 0 <= i < |m| && LeadingNumber(m[i].value) == n - 1
    ensures NextNumber(m) == n
  {
    var N := NextNumber(m);
    if N > 1 {
      var i :| 0 <= i < |m| && LeadingNumber(m[i].value) == N - 1;
      assert N - 1 < n;
    }
    if n > 1 {
      var i :| 0 <= i < |m| && LeadingNumber(m[i].value) == n - 1;
      assert n - 1 < N;
    }
  }

  /** Each new lesson numbers one above the previous one. */
  lemma AddLessonIncrements(m: Meta, slug: string, title: string)
    requires DistinctKeys(m)
    ensures NextNumber(AddLesson(m, slug, title)) == NextNumber(m) + 1
  {
    var n := NextNumber(m);
    var lbl := Label(n, title);
    var r := Put(m, slug, lbl);
    assert LeadingNumber(lbl) == n;
    PutEntries(m, slug, lbl);
    PutHasKey(m, slug, lbl);
    var j :| 0 <= j < |r| && r[j].key == slug;
    assert r[j].value == lbl;
    forall i | 0 <= i < |r|
      ensures LeadingNumber(r[i].value) < n + 1
    {
      if r[i].key != slug {
        assert r[i] == m[i];
      } else {
        assert r[i].value == lbl;
      }
    }
    NextNumberIs(r, n + 1);
  }

  /** Adding a slug that is already there renumbers it above its old number. */
  lemma ReAddRaisesNumber(m: Meta, slug: string, title: string, old_: string)
    requires Lookup(m, slug) == Some(old_)
    ensures Lookup(AddLesson(m, slug, title), slug).Some?
    ensures LeadingNumber(Lookup(AddLesson(m, slug, title), slug).value) > LeadingNumber(old_)
  {
    PutLookup(m, slug, Label(NextNumber(m), title));
    var i :| 0 <= i < |m| && m[i] == Entry(slug, old_);
  }

  /** Numbering an empty or unnumbered file starts at 1. */
  lemma FirstLessonExample(title: string)
    ensures AddLesson([], "intro", title) == [Entry("intro", Label(1, title))]
    ensures Label(1, "Intro") == "1. Intro"
  {
    assert Show(1) == "1";
  }
}
