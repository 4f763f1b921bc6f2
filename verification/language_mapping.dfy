/** The table that turns a detected language tag into the two-letter code
    stored on a CRM contact. */
module LanguageMapping {

  /** The code used for every tag the table does not list. */
  const Unknown: string := "UN"

  /** Detector tag to contact code. Lookups are exact: no case folding. */
  const Table: map<string, string> := map[
    "en" := "EN", "fr" := "FR", "es" := "ES", "de" := "DE", "it" := "IT",
    "pt" := "PT", "nl" := "NL", "ru" := "RU", "zh-cn" := "ZH", "zh-tw" := "ZH",
    "ja" := "JA", "ko" := "KO", "ar" := "AR", "hi" := "HI", "bn" := "BN",
    "pa" := "PA", "jv" := "JV", "ms" := "MS", "tr" := "TR", "vi" := "VI",
    "pl" := "PL", "uk" := "UK", "ro" := "RO", "cs" := "CS", "el" := "EL",
    "hu" := "HU", "sv" := "SV", "fi" := "FI", "no" := "NO", "da" := "DA",
    "he" := "HE", "th" := "TH", "id" := "ID"
  ]

  predicate IsUpperLetter(c: char)
  {
    'A' <= c <= 'Z'
  }

  predicate IsLowerLetter(c: char)
  {
    'a' <= c <= 'z'
  }

  /** Two upper-case ASCII letters: the shape of every contact code. */
  predicate IsCode(s: string)
  {
    |s| == 2 && IsUpperLetter(s[0]) && IsUpperLetter(s[1])
  }

  /** ASCII upper-casing of one character. */
  function UpperChar(c: char): char
  {
    if IsLowerLetter(c) then (c as int - 32) as char else c
  }

  /** ASCII upper-casing, letter by letter. */
  function Upper(s: string): (u: string)
    ensures |u| == |s|
    ensures forall i :: 0 <= i < |s| ==> u[i] == UpperChar(s[i])
  {
    if |s| == 0 then "" else [UpperChar(s[0])] + Upper(s[1..])
  }

  /** Tags are written with lower-case letters and hyphens only. */
  predicate IsTag(s: string)
  {
    forall c :: c in s ==> IsLowerLetter(c) || c == '-'
  }

  /** Every listed tag is a lower-case tag. */
  lemma TableKeysAreTags()
    ensures forall k :: k in Table ==> IsTag(k)
  {
  }

  /** Every listed tag maps to a code, and no listed tag maps to the default. */
  lemma TableShape()
    ensures forall k :: k in Table ==> IsCode(Table[k]) && Table[k] != Unknown
  {
  }

  /** `map_language_code`: the listed code, or the default for any other tag. */
  function MapLanguageCode(lang: string): (code: string)
    ensures lang in Table ==> code == Table[lang]
    ensures lang !in Table ==> code == Unknown
    ensures IsCode(code)
    ensures code == Unknown <==> lang !in Table
  {
    TableShape();
    if lang in Table then Table[lang] else Unknown
  }

  /** Apart from the two Chinese variants, each listed tag maps to itself
      upper-cased. Stated for the rows in table order, two at a time, so
      that each lemma looks up only a few literal tags: one lemma quantified
      over every row makes the verifier decide every pair of distinct keys
      at once, which costs more than it can afford. */
  lemma UpperCasedRows1()
    ensures
      && MapLanguageCode("en") == Upper("en")
      && MapLanguageCode("fr") == Upper("fr")
  {
  }

  lemma UpperCasedRows2()
    ensures
      && MapLanguageCode("es") == Upper("es")
      && MapLanguageCode("de") == Upper("de")
  {
  }

  lemma UpperCasedRows3()
    ensures
      && MapLanguageCode("it") == Upper("it")
      && MapLanguageCode("pt") == Upper("pt")
  {
  }

  lemma UpperCasedRows4()
    ensures
      && MapLanguageCode("nl") == Upper("nl")
      && MapLanguageCode("ru") == Upper("ru")
  {
  }

  lemma UpperCasedRows5()
    ensures
      && MapLanguageCode("ja") == Upper("ja")
      && MapLanguageCode("ko") == Upper("ko")
  {
  }

  lemma UpperCasedRows6()
    ensures
      && MapLanguageCode("ar") == Upper("ar")
      && MapLanguageCode("hi") == Upper("hi")
  {
  }

  lemma UpperCasedRows7()
    ensures
      && MapLanguageCode("bn") == Upper("bn")
      && MapLanguageCode("pa") == Upper("pa")
  {
  }

  lemma UpperCasedRows8()
    ensures
      && MapLanguageCode("jv") == Upper("jv")
      && MapLanguageCode("ms") == Upper("ms")
  {
  }

  lemma UpperCasedRows9()
    ensures
      && MapLanguageCode("tr") == Upper("tr")
      && MapLanguageCode("vi") == Upper("vi")
  {
  }

  lemma UpperCasedRows10()
    ensures
      && MapLanguageCode("pl") == Upper("pl")
      && MapLanguageCode("uk") == Upper("uk")
  {
  }

  lemma UpperCasedRows11()
    ensures
      && MapLanguageCode("ro") == Upper("ro")
      && MapLanguageCode("cs") == Upper("cs")
  {
  }

  lemma UpperCasedRows12()
    ensures
      && MapLanguageCode("el") == Upper("el")
      && MapLanguageCode("hu") == Upper("hu")
  {
  }

  lemma UpperCasedRows13()
    ensures
      && MapLanguageCode("sv") == Upper("sv")
      && MapLanguageCode("fi") == Upper("fi")
  {
  }

  lemma UpperCasedRows14()
    ensures
      && MapLanguageCode("no") == Upper("no")
      && MapLanguageCode("da") == Upper("da")
  {
  }

  lemma UpperCasedRows15()
    ensures
      && MapLanguageCode("he") == Upper("he")
      && MapLanguageCode("th") == Upper("th")
  {
  }

  lemma UpperCasedRows16()
    ensures
      && MapLanguageCode("id") == Upper("id")
  {
  }

  /** Both Chinese variants share one code, so distinct tags can collide. */
  lemma ChineseVariantsCollide()
    ensures exists a, b :: a != b && a in Table && b in Table && MapLanguageCode(a) == MapLanguageCode(b)
  {
    assert MapLanguageCode("zh-cn") == MapLanguageCode("zh-tw") == "ZH";
  }

  /** Tags are compared exactly: any tag carrying an upper-case letter is
      unknown, `EN` included. */
  lemma CaseSensitiveLookup(lang: string, i: int)
    requires 0 <= i < |lang| && IsUpperLetter(lang[i])
    ensures MapLanguageCode(lang) == Unknown
  {
    TableKeysAreTags();
    assert lang[i] in lang;
    assert !IsTag(lang);
  }

  lemma UpperCaseEnglishIsUnknown()
    ensures MapLanguageCode("EN") == Unknown
  {
    CaseSensitiveLookup("EN", 0);
  }
}
