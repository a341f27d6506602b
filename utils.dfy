/** app/pkg/utils/utils.go: the parser for boolean query flags such as `global`. */
module Utils {

  /** The spellings accepted as true, in the order the source lists them. */
  const TrulyValues: seq<string> := ["1", "T", "t", "TRUE", "True", "true", "ON", "On", "on"]

  /** `StringToBool`: an exact, case-sensitive membership test against `TrulyValues`. */
  function StringToBool(str: string): (r: bool)
    ensures r ==> 1 <= |str| <= 4
    ensures r ==> str[0] in "1TtOo"
  {
    str in TrulyValues
  }

  // An independent description of the accepted spellings: the lower-case, upper-case and
  // capitalised forms of the four words 1, t, true and on.

  function LowerChar(c: char): char { if 'A' <= c <= 'Z' then c - 'A' + 'a' else c }
  function UpperChar(c: char): char { if 'a' <= c <= 'z' then c - 'a' + 'A' else c }

  function Lower(s: string): (r: string)
    ensures |r| == |s|
  {
    seq(|s|, i requires 0 <= i < |s| => LowerChar(s[i]))
  }

  function Upper(s: string): (r: string)
    ensures |r| == |s|
  {
    seq(|s|, i requires 0 <= i < |s| => UpperChar(s[i]))
  }

  /** First character upper-cased, the rest lower-cased. */
  function Capitalized(s: string): (r: string)
    ensures |r| == |s|
  {
    if s == [] then [] else [UpperChar(s[0])] + Lower(s[1..])
  }

  const TrueWords: set<string> := {"1", "t", "true", "on"}

  /** `s` is one of the three usual casings of one of the words that mean true. */
  predicate IsCasedTrueWord(s: string)
  {
    Lower(s) in TrueWords && (s == Lower(s) || s == Upper(s) || s == Capitalized(s))
  }

  lemma UpperOfLower(s: string)
    ensures Upper(Lower(s)) == Upper(s)
  {
  }

  lemma CapitalizedOfLower(s: string)
    ensures Capitalized(Lower(s)) == Capitalized(s)
  {
    if s != [] {
      assert Lower(s)[1..] == Lower(s[1..]);
      assert Lower(Lower(s[1..])) == Lower(s[1..]);
    }
  }

  /** The three casings of each word that means true. */
  lemma TrueWordCasings()
    ensures Upper("1") == "1" && Capitalized("1") == "1"
    ensures Upper("t") == "T" && Capitalized("t") == "T"
    ensures Upper("true") == "TRUE" && Capitalized("true") == "True"
    ensures Upper("on") == "ON" && Capitalized("on") == "On"
  {
    assert Lower("rue") == "rue";
    assert Lower("n") == "n";
  }

  /** Every spelling `StringToBool` accepts is a casing of a word that means true. */
  lemma TrulyValuesAreCasedTrueWords(s: string)
    requires StringToBool(s)
    ensures IsCasedTrueWord(s)
  {
    TrueWordCasings();
    if s == "1" || s == "t" || s == "true" || s == "on" {
      assert Lower(s) == s;
    } else if s == "T" {
      assert Lower(s) == "t";
    } else if s == "TRUE" || s == "True" {
      assert Lower(s) == "true";
    } else {
      assert Lower(s) == "on";
    }
  }

  /** Every casing of a word that means true is accepted by `StringToBool`. */
  lemma CasedTrueWordsAreTrulyValues(s: string)
    requires IsCasedTrueWord(s)
    ensures StringToBool(s)
  {
    var w := Lower(s);
    UpperOfLower(s);
    CapitalizedOfLower(s);
    TrueWordCasings();
    assert s == w || s == Upper(w) || s == Capitalized(w);
    if w == "1" {
      assert s == "1";
    } else if w == "t" {
      assert s == "t" || s == "T";
    } else if w == "true" {
      assert s == "true" || s == "TRUE" || s == "True";
    } else {
      assert w == "on";
      assert s == "on" || s == "ON" || s == "On";
    }
  }

  /** `StringToBool` accepts exactly the lower-case, upper-case and capitalised spellings of
      "1", "t", "true" and "on": so "tRUE" and "oN" are rejected while "On" is accepted. */
  lemma StringToBoolIsCasedTrueWord(s: string)
    ensures StringToBool(s) <==> IsCasedTrueWord(s)
  {
    if IsCasedTrueWord(s) {
      CasedTrueWordsAreTrulyValues(s);
    }
    if StringToBool(s) {
      TrulyValuesAreCasedTrueWords(s);
    }
  }

  /** No trimming: a space before or after any input makes the flag false. */
  lemma StringToBoolNoTrim(s: string)
    ensures !StringToBool(" " + s)
    ensures !StringToBool(s + " ")
  {
    var t := s + " ";
    assert t[|t| - 1] == ' ';
  }

  /** The spellings of false that other parsers accept are not true here either,
      nor is the empty string (an absent flag). */
  lemma StringToBoolRejects()
    ensures !StringToBool("") && !StringToBool("0") && !StringToBool("false")
    ensures !StringToBool("off") && !StringToBool("yes") && !StringToBool("tRUE") && !StringToBool("oN")
  {
  }
}
