/**
 * The Cyrillic-to-Latin table of the rehype-transliterate-slugs plugin, the
 * `transliterate` function built on it, and the two `hasCyrillic` detectors:
 * the CommonJS copy tests the whole block U+0400..U+04FF, the ES-module copy
 * only the character class [а-яёА-ЯЁ].
 */
module Translit {
  import opened Wrappers

  /**
   * TRANSLIT_MAP's values for the lower-case letters а..я, which are the
   * consecutive code points U+0430..U+044F; ё (U+0451) lies outside the run.
   */
  const LowerValues: seq<string> := [
    "a", "b", "v", "g", "d", "e", "zh", "z", "i", "j", "k", "l", "m", "n", "o", "p",
    "r", "s", "t", "u", "f", "kh", "ts", "ch", "sh", "shch", "", "y", "", "e", "yu", "ya"]

  /** The values for the upper-case letters А..Я, U+0410..U+042F; Ё (U+0401) lies outside the run. */
  const UpperValues: seq<string> := [
    "a", "b", "v", "g", "d", "e", "zh", "z", "i", "j", "k", "l", "m", "n", "o", "p",
    "r", "s", "t", "u", "f", "kh", "ts", "ch", "sh", "shch", "", "y", "", "e", "yu", "ya"]

  /**
   * TRANSLIT_MAP: the 33 lower-case and 33 upper-case Russian letters, looked
   * up by code point. None means the character is not a key of the table.
   */
  function TableEntry(c: char): (r: Option<string>)
    ensures r.Some? <==> IsRussianLetter(c)
  {
    if 'а' <= c <= 'я' then Some(LowerValues[c as int - 'а' as int])
    else if 'А' <= c <= 'Я' then Some(UpperValues[c as int - 'А' as int])
    else if c == 'ё' || c == 'Ё' then Some("yo")
    else None
  }

  /** The replacement of one character: its table string, or the character itself. */
  function TranslitChar(c: char): (r: string)
    ensures !IsRussianLetter(c) ==> r == [c]
    ensures IsRussianLetter(c) ==> |r| <= 4 && IsLowerAscii(r)
  {
    TableValuesAreShortLowerAscii(c);
    match TableEntry(c)
    case Some(v) => v
    case None => [c]
  }

  /** transliterate: split into characters, map each one, join. */
  function Transliterate(s: string): (r: string)
    ensures |r| <= 4 * |s|
  {
    if s == [] then [] else TranslitChar(s[0]) + Transliterate(s[1..])
  }

  /** The CommonJS detector: /[\u0400-\u04FF]/.test(s). */
  predicate InCyrillicBlock(c: char) {
    '\U{0400}' <= c <= '\U{04FF}'
  }

  /** Every key of the table lies in the block, so this detector fires on any string holding one. */
  predicate HasCyrillicBlock(s: string)
    ensures (exists i :: 0 <= i < |s| && TableEntry(s[i]).Some?) ==> HasCyrillicBlock(s)
  {
    exists i :: 0 <= i < |s| && InCyrillicBlock(s[i])
  }

  /** The ES-module detector: /[а-яёА-ЯЁ]/.test(s). */
  predicate IsRussianLetter(c: char) {
    ('а' <= c <= 'я') || c == 'ё' || ('А' <= c <= 'Я') || c == 'Ё'
  }

  /** The class [а-яёА-ЯЁ] is exactly the table's key set: this detector fires on the strings holding a key. */
  predicate HasRussianLetter(s: string)
    ensures HasRussianLetter(s) <==> exists i :: 0 <= i < |s| && TableEntry(s[i]).Some?
  {
    exists i :: 0 <= i < |s| && IsRussianLetter(s[i])
  }

  predicate IsLowerAscii(s: string) {
    forall i :: 0 <= i < |s| ==> 'a' <= s[i] <= 'z'
  }

  /** Transliteration is a homomorphism: it maps characters independently and concatenates in order. */
  lemma {:induction false} TransliterateAppend(a: string, b: string)
    ensures Transliterate(a + b) == Transliterate(a) + Transliterate(b)
  {
    if a == [] {
      assert a + b == b;
    } else {
      assert (a + b)[1..] == a[1..] + b;
      TransliterateAppend(a[1..], b);
    }
  }

  /** Every table value is a lower-case ASCII string of at most four letters. */
  lemma TableValuesAreShortLowerAscii(c: char)
    ensures TableEntry(c).Some? ==> |TableEntry(c).value| <= 4 && IsLowerAscii(TableEntry(c).value)
  {
    assert forall k :: 0 <= k < |LowerValues| ==> |LowerValues[k]| <= 4 && IsLowerAscii(LowerValues[k]);
    assert UpperValues == LowerValues;
  }

  /** The lower-case partner of an upper-case Russian letter. */
  function LowerPartner(c: char): char
    requires ('А' <= c <= 'Я') || c == 'Ё'
  {
    if c == 'Ё' then 'ё' else (c as int + 0x20) as char
  }

  /** Upper case folds: an upper-case letter maps to the same string as its lower-case partner. */
  lemma UpperCaseFolds(c: char)
    requires ('А' <= c <= 'Я') || c == 'Ё'
    ensures ('а' <= LowerPartner(c) <= 'я') || LowerPartner(c) == 'ё'
    ensures TableEntry(c) == TableEntry(LowerPartner(c))
  {
    assert UpperValues == LowerValues;
  }

  /** The hard and soft signs, in both cases, are deleted. */
  lemma SignsAreDeleted()
    ensures TableEntry('ъ') == Some("") && TableEntry('Ъ') == Some("")
    ensures TableEntry('ь') == Some("") && TableEntry('Ь') == Some("")
  {
  }

  /** The replacement of a character holds no key of the table. */
  lemma TranslitCharHasNoKey(c: char)
    ensures forall i :: 0 <= i < |TranslitChar(c)| ==> TableEntry(TranslitChar(c)[i]).None?
  {
    TableValuesAreShortLowerAscii(c);
  }

  /** No character of the output is a key of the table. */
  lemma {:induction false} OutputHasNoTableKey(s: string)
    ensures forall i :: 0 <= i < |Transliterate(s)| ==> TableEntry(Transliterate(s)[i]).None?
  {
    if s != [] {
      OutputHasNoTableKey(s[1..]);
      var head, tail := TranslitChar(s[0]), Transliterate(s[1..]);
      TranslitCharHasNoKey(s[0]);
      var out := Transliterate(s);
      assert out == head + tail;
      forall i | 0 <= i < |out| ensures TableEntry(out[i]).None? {
        if i < |head| {
          assert out[i] == head[i];
        } else {
          assert out[i] == tail[i - |head|];
        }
      }
    }
  }

  /** On a string with no table key, transliterate is the identity. */
  lemma {:induction false} IdentityWithoutTableKeys(s: string)
    requires forall i :: 0 <= i < |s| ==> TableEntry(s[i]).None?
    ensures Transliterate(s) == s
  {
    if s != [] {
      IdentityWithoutTableKeys(s[1..]);
      assert s == [s[0]] + s[1..];
    }
  }

  /** Transliterating a second time changes nothing. */
  lemma TransliterateIdempotent(s: string)
    ensures Transliterate(Transliterate(s)) == Transliterate(s)
  {
    OutputHasNoTableKey(s);
    IdentityWithoutTableKeys(Transliterate(s));
  }

  /** With the ES-module detector, the output of transliterate is never Cyrillic. */
  lemma NoRussianLetterAfterTransliterate(s: string)
    ensures !HasRussianLetter(Transliterate(s))
  {
    OutputHasNoTableKey(s);
    var out := Transliterate(s);
    assert forall i :: 0 <= i < |out| ==> !IsRussianLetter(out[i]);
  }

  /**
   * The CommonJS detector is wider than the table: "і" (U+0456) is in the
   * block, is no table key, and survives transliteration, so the output can
   * still test as Cyrillic.
   */
  lemma BlockIsWiderThanTable()
    ensures HasCyrillicBlock("\U{0456}") && !HasRussianLetter("\U{0456}")
    ensures Transliterate("\U{0456}") == "\U{0456}"
    ensures HasCyrillicBlock(Transliterate("\U{0456}"))
  {
    assert InCyrillicBlock("\U{0456}"[0]);
    IdentityWithoutTableKeys("\U{0456}");
  }

  /** "мир" and "МИР" both give "mir": ids differing only in case collide. */
  lemma LowerCaseExample()
    ensures Transliterate("мир") == "mir"
  {
    MirLetters();
    assert "мир"[1..] == "ир" && "ир"[1..] == "р" && "р"[1..] == "";
  }

  lemma UpperCaseExample()
    ensures Transliterate("МИР") == "mir"
  {
    MirLetters();
    assert "МИР"[1..] == "ИР" && "ИР"[1..] == "Р" && "Р"[1..] == "";
  }

  lemma MirLetters()
    ensures TranslitChar('м') == "m" && TranslitChar('и') == "i" && TranslitChar('р') == "r"
    ensures TranslitChar('М') == "m" && TranslitChar('И') == "i" && TranslitChar('Р') == "r"
  {
  }

  /** A letter can expand to four characters (щ) ... */
  lemma ExpansionExample()
    ensures Transliterate("щит") == "shchit"
  {
    MirLetters();
    assert TranslitChar('щ') == "shch" && TranslitChar('т') == "t";
    assert "щит"[1..] == "ит" && "ит"[1..] == "т" && "т"[1..] == "";
  }

  /** ... or vanish (ъ). */
  lemma DeletionExample()
    ensures Transliterate("съел") == "sel"
  {
    DeletionLetters();
    assert "л"[1..] == "" && Transliterate("л") == "l";
    assert "ел"[1..] == "л" && Transliterate("ел") == "el";
    assert "ъел"[1..] == "ел" && Transliterate("ъел") == "el";
    assert "съел"[1..] == "ъел";
  }

  lemma DeletionLetters()
    ensures TranslitChar('с') == "s" && TranslitChar('ъ') == ""
    ensures TranslitChar('е') == "e" && TranslitChar('л') == "l"
  {
  }
}
