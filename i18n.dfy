/** The choice of the interface language: from a Telegram language code, and with a fallback when switching. */
module I18n {
  import opened Common

  /** `SUPPORT_LOCALES`. */
  datatype Locale = EN | RU | UK

  /** The string value of each locale. */
  function LocaleName(l: Locale): string {
    match l
    case EN => "EN"
    case RU => "RU"
    case UK => "UK"
  }

  /** `LANGUAGES` in declaration order: the codes the interface has messages for. */
  const AvailableCodes: seq<string> := ["EN", "RU", "UK"]

  /** ASCII upper case; other characters are kept as they are. */
  function ToUpper(s: string): (r: string)
    ensures |r| == |s|
    ensures forall i :: 0 <= i < |s| ==> r[i] == (if 'a' <= s[i] <= 'z' then (s[i] as int - 32) as char else s[i])
  {
    if s == [] then []
    else [if 'a' <= s[0] <= 'z' then (s[0] as int - 32) as char else s[0]] + ToUpper(s[1..])
  }

  /** ASCII lower case. */
  function ToLower(s: string): (r: string)
    ensures |r| == |s|
    ensures forall i :: 0 <= i < |s| ==> r[i] == (if 'A' <= s[i] <= 'Z' then (s[i] as int + 32) as char else s[i])
  {
    if s == [] then []
    else [if 'A' <= s[0] <= 'Z' then (s[0] as int + 32) as char else s[0]] + ToLower(s[1..])
  }

  /** The supported locale whose value is `name`, if any. */
  function LocaleNamed(name: string): (r: Option<Locale>)
    ensures r.Some? ==> LocaleName(r.value) == name
    ensures r.None? ==> name !in AvailableCodes
  {
    if name == "EN" then Some(EN) else if name == "RU" then Some(RU) else if name == "UK" then Some(UK) else None
  }

  /** `getLocaleFromLanguageCode`: the supported locale the upper-cased code names, else EN. */
  function LocaleFromLanguageCode(languageCode: Option<string>): (r: Locale)
    ensures languageCode.None? || languageCode == Some("") ==> r == EN
    ensures languageCode.Some? && ToUpper(languageCode.value) in AvailableCodes ==> LocaleName(r) == ToUpper(languageCode.value)
    ensures languageCode.Some? && ToUpper(languageCode.value) !in AvailableCodes ==> r == EN
  {
    if languageCode.None? || languageCode.value == "" then EN
    else LocaleNamed(ToUpper(languageCode.value)).GetOr(EN)
  }

  /** Every locale is found from its own code in either case. */
  lemma LocaleCodeRoundTrip(l: Locale)
    ensures LocaleFromLanguageCode(Some(LocaleName(l))) == l
    ensures LocaleFromLanguageCode(Some(ToLower(LocaleName(l)))) == l
  {
    var lower := ToLower(LocaleName(l));
    assert ToUpper(lower) == LocaleName(l);
  }

  /** A regional code such as "en-US", and an unsupported language such as "de", fall back to EN. */
  lemma UnsupportedCodes()
    ensures LocaleFromLanguageCode(Some("en-US")) == EN
    ensures LocaleFromLanguageCode(Some("de")) == EN
  {
    assert ToUpper("en-US") == "EN-US";
    assert ToUpper("de") == "DE";
  }

  /** The part of the vue-i18n instance `setI18nLanguage` writes. */
  class Translator {
    var locale: string

    constructor(locale: string)
      ensures this.locale == locale
    {
      this.locale := locale;
    }

    /** Lines 52-59: an unsupported locale is replaced by EN before it is set. */
    method SetLanguage(requested: string)
      modifies this
      ensures locale == (if requested in AvailableCodes then requested else "EN")
      ensures locale in AvailableCodes
    {
      var chosen := requested;
      if chosen !in AvailableCodes {
        chosen := LocaleName(EN);
      }
      locale := chosen;
    }
  }
}
