/**
 * The suffix after "урок" in the lesson count on the home page's course
 * cards: "1 урок", "3 урока", "7 уроков".
 */
module LessonCount {

  /** The rule as the page writes it: '' for exactly 1, 'а' below 5, 'ов' otherwise. */
  function SuffixAsWritten(count: nat): (s: string)
    ensures s == "" <==> count == 1
    ensures s == "а" <==> count == 0 || 2 <= count <= 4
    ensures s == "ов" <==> count >= 5
  {
    if count == 1 then "" else if count < 5 then "а" else "ов"
  }

  /**
   * Russian agreement of "урок" with a numeral: the singular after a number
   * ending in 1 (but not 11), the genitive singular after one ending in 2-4
   * (but not 12-14), the genitive plural after everything else, 0 included.
   */
  function Suffix(count: nat): (s: string)
    ensures s == "" <==> count % 10 == 1 && count % 100 != 11
    ensures s == "а" <==> 2 <= count % 10 <= 4 && !(12 <= count % 100 <= 14)
    ensures s == "ов" <==> !(count % 10 == 1 && count % 100 != 11) && !(2 <= count % 10 <= 4 && !(12 <= count % 100 <= 14))
  {
    var last, lastTwo := count % 10, count % 100;
    if last == 1 && lastTwo != 11 then ""
    else if 2 <= last <= 4 && !(12 <= lastTwo <= 14) then "а"
    else "ов"
  }

  /** The agreement depends only on the last two digits. */
  lemma SuffixPeriodic(count: nat)
    ensures Suffix(count + 100) == Suffix(count)
  {
    assert (count + 100) % 100 == count % 100;
    assert (count + 100) % 10 == count % 10;
  }

  /** For the counts 1 to 20 the page's rule is the Russian one. */
  lemma AsWrittenAgreesUpToTwenty(count: nat)
    requires 1 <= count <= 20
    ensures SuffixAsWritten(count) == Suffix(count)
  {
  }

  /** 0 reads "0 урока", 21 reads "21 уроков" and 22 reads "22 уроков" on the page. */
  lemma AsWrittenDiffers()
    ensures SuffixAsWritten(0) == "а" && Suffix(0) == "ов"
    ensures SuffixAsWritten(21) == "ов" && Suffix(21) == ""
    ensures SuffixAsWritten(22) == "ов" && Suffix(22) == "а"
  {
  }
}
