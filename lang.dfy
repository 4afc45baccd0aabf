/**
 * The two supported language codes and the facts derived from a code alone:
 * the reading direction, the language a toggle switches to, and the label
 * the toggle control shows.
 */
module Lang {

  const Hebrew := "he"
  const English := "en"

  /** The language the table falls back to when the requested one is missing. */
  const Fallback := English

  const Rtl := "rtl"
  const Ltr := "ltr"

  /** Display names shown on the toggle control; the Hebrew one is spelled as the page spells it. */
  const EnglishName := "English"
  const HebrewName := "\U{05E1}\U{05D1}\U{05D8}\U{05D9}\U{05EA}"

  /** Reading direction of a document in language `lang`: right-to-left exactly for Hebrew. */
  function Dir(lang: string): (r: string)
    ensures r == Rtl <==> lang == Hebrew
    ensures r == Rtl || r == Ltr
  {
    if lang == Hebrew then Rtl else Ltr
  }

  /** The language a toggle moves to: English from Hebrew, Hebrew from anything else. */
  function NextLang(current: string): (r: string)
    ensures r == Hebrew || r == English
    ensures r == English <==> current == Hebrew
  {
    if current == Hebrew then English else Hebrew
  }

  /** The name of a supported language, as the toggle control displays it. */
  function DisplayName(lang: string): string
    requires lang == Hebrew || lang == English
  {
    if lang == English then EnglishName else HebrewName
  }

  /** The toggle control's label while the page is in `lang`. */
  function ToggleLabel(lang: string): (r: string)
    ensures r == EnglishName <==> lang == Hebrew
    ensures r == EnglishName || r == HebrewName
  {
    if lang == Hebrew then EnglishName else HebrewName
  }

  /** The label always names the language the next toggle switches to, never the current one. */
  lemma ToggleLabelNamesNext(lang: string)
    ensures ToggleLabel(lang) == DisplayName(NextLang(lang))
    ensures lang == Hebrew || lang == English ==> ToggleLabel(lang) != DisplayName(lang)
  {
  }

  /** Toggling twice returns to a supported language, and to English from any unsupported one. */
  lemma NextLangTwice(current: string)
    ensures current == Hebrew || current == English ==> NextLang(NextLang(current)) == current
    ensures current != Hebrew && current != English ==> NextLang(NextLang(current)) == English
  {
  }
}
