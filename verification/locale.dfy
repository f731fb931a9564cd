/**
 * The two user locales. The enum declares the members `EN = 'en'` and
 * `DE = 'de'`; a locale value from the browser or the user preferences is
 * a string, or null/undefined (both `None` here).
 */
module Locale {
  datatype Locale = EN | DE

  /** The locale codes the mappers produce. */
  const EnglishCode: string := "en-US"
  const GermanCode: string := "de-DE"
}

/** The locale mappers everyone else calls: `'en'` and `'en-US'` are English, all else German. */
module LocaleUtil {
  import opened Wrappers
  import opened Locale

  /** `getLocale`. */
  function GetLocale(value: Option<string>): Locale
  {
    if value == Some("en") || value == Some("en-US") then EN else DE
  }

  /** `getLocaleCode`: the code of the locale `value` maps to. */
  function GetLocaleCode(value: Option<string>): (r: string)
    ensures r == EnglishCode || r == GermanCode
    ensures r == GermanCode <==> value != Some("en") && value != Some("en-US")
  {
    if GetLocale(value) == DE then GermanCode else EnglishCode
  }

  /** `getTranslationIdx`: German translations come first, English second. */
  function GetTranslationIdx(value: Option<string>): (r: int)
    ensures 0 <= r <= 1
    ensures r == 0 <==> value != Some("en") && value != Some("en-US")
  {
    if GetLocale(value) == DE then 0 else 1
  }

  /** Exactly the two English spellings map to English; null and undefined are German. */
  lemma GetLocaleTable(value: Option<string>)
    ensures GetLocale(value) == EN <==> value.Some? && (value.value == "en" || value.value == "en-US")
    ensures GetLocale(None) == DE
  {
  }

  /** The code a value maps to maps back to the same locale, so the codes are fixed points. */
  lemma LocaleCodeRoundTrip(value: Option<string>)
    ensures GetLocale(Some(GetLocaleCode(value))) == GetLocale(value)
    ensures GetLocaleCode(Some(GetLocaleCode(value))) == GetLocaleCode(value)
  {
  }

  /** The translation index identifies the locale, and so does the code. */
  lemma IndexAndCodeAgree(v1: Option<string>, v2: Option<string>)
    ensures GetTranslationIdx(v1) == GetTranslationIdx(v2) <==> GetLocale(v1) == GetLocale(v2)
    ensures GetLocaleCode(v1) == GetLocaleCode(v2) <==> GetLocale(v1) == GetLocale(v2)
  {
  }
}

/**
 * The older locale mappers, kept next to the current ones. The test
 * `value === ('en' || 'en-US')` compares against the value of the
 * parenthesised expression, and `'en' || 'en-US'` is `'en'`.
 */
module GetLocaleUtil {
  import opened Wrappers
  import opened Locale
  import LocaleUtil

  /** JavaScript's `a || b` on strings: `a` unless it is the empty (falsy) string. */
  function StringOr(a: string, b: string): (r: string)
    ensures a != "" ==> r == a
    ensures a == "" ==> r == b
  {
    if a != "" then a else b
  }

  /** `getLocale` as written. */
  function GetLocale(value: Option<string>): Locale
  {
    if value == Some(StringOr("en", "en-US")) then EN else DE
  }

  /** `getLocaleCode` as written, on top of this module's `GetLocale`. */
  function GetLocaleCode(value: Option<string>): (r: string)
    ensures r == EnglishCode || r == GermanCode
    ensures r == GermanCode <==> value != Some("en")
  {
    if GetLocale(value) == DE then GermanCode else EnglishCode
  }

  /** Only the exact string `'en'` is English; `'en-US'`, null and undefined are German. */
  lemma OnlyEnIsEnglish(value: Option<string>)
    ensures GetLocale(value) == EN <==> value == Some("en")
    ensures GetLocale(Some("en-US")) == DE && GetLocale(None) == DE
  {
  }

  /**
   * The code for `'en'` is `'en-US'`, which this mapper reads as German: the
   * code is not a fixed point, unlike with the current mapper.
   */
  lemma {:induction false} LocaleCodeNotIdempotent()
    ensures GetLocaleCode(Some("en")) == EnglishCode
    ensures GetLocaleCode(Some(GetLocaleCode(Some("en")))) == GermanCode
    ensures LocaleUtil.GetLocaleCode(Some(LocaleUtil.GetLocaleCode(Some("en")))) == EnglishCode
  {
    assert EnglishCode != "en";
  }

  /** The two mappers differ on `'en-US'` only. */
  lemma DiffersFromCurrentOnlyOnEnUs(value: Option<string>)
    ensures GetLocale(value) != LocaleUtil.GetLocale(value) <==> value == Some("en-US")
  {
  }
}

/** `getTranslationIdx` on top of the older mapper. */
module GetTranslationIdxUtil {
  import opened Wrappers
  import opened Locale
  import GetLocaleUtil

  function GetTranslationIdx(value: Option<string>): (r: int)
    ensures 0 <= r <= 1
    ensures r == 0 <==> value != Some("en")
  {
    GetLocaleUtil.OnlyEnIsEnglish(value);
    if GetLocaleUtil.GetLocale(value) == DE then 0 else 1
  }

  /** `'en'` selects the English translation; `'en-US'`, null and undefined the German one. */
  lemma {:induction false} TranslationIdxTable()
    ensures GetTranslationIdx(Some("en")) == 1
    ensures GetTranslationIdx(Some("en-US")) == 0
    ensures GetTranslationIdx(None) == 0
  {
    GetLocaleUtil.OnlyEnIsEnglish(Some("en"));
  }
}
