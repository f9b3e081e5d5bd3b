/**
 * The active locale: its two codes, the switch between them and the label of
 * the language button.
 */
module Locale {
  /** The locale codes for which a dictionary is loaded. */
  predicate Supported(code: string) {
    code == "ko" || code == "en"
  }

  /** `this.currentLang === 'ko' ? 'en' : 'ko'`. */
  function SwitchedCode(code: string): (r: string)
    ensures Supported(r)
    ensures Supported(code) ==> r != code
  {
    if code == "ko" then "en" else "ko"
  }

  /** Switching twice restores a supported locale. */
  lemma SwitchTwiceRestores(code: string)
    requires Supported(code)
    ensures SwitchedCode(SwitchedCode(code)) == code
  {
  }

  /** ASCII upper case of one character. */
  function UpperChar(c: char): char {
    if 'a' <= c <= 'z' then (c as int - 'a' as int + 'A' as int) as char else c
  }

  /** ASCII upper case of a string. */
  function Upper(s: string): string {
    seq(|s|, i requires 0 <= i < |s| => UpperChar(s[i]))
  }

  /** The text of the language button after `updateLanguageButton`: the
      active locale first, then the one a click switches to. */
  function LanguageLabel(code: string): (shown: string)
    ensures Supported(code) ==> shown == Upper(code) + " / " + Upper(SwitchedCode(code))
    ensures shown == "KO / EN" || shown == "EN / KO"
  {
    assert Upper("ko") == "KO";
    assert Upper("en") == "EN";
    if code == "ko" then "KO / EN" else "EN / KO"
  }

  /** The label tells the two locales apart. */
  lemma LabelDeterminesLocale(a: string, b: string)
    requires Supported(a) && Supported(b)
    ensures LanguageLabel(a) == LanguageLabel(b) <==> a == b
  {
  }
}
