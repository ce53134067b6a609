/**
 * The front-end i18n of `src/locales/index.ts`: a fixed list of supported
 * locale codes, one bundled translation tree per code, and a current locale
 * that only ever holds a supported code. The trees' contents (the JSON files)
 * are a parameter.
 */
module Locales {
  import opened Translation

  const SupportedLocales: seq<string> := [
    "zh-CN", "en-US", "zh-TW", "zh-JB", "zh-NE", "de-DE", "en-AU", "en-GB",
    "en-PT", "en-UN", "es-ES", "ja-JP", "ru-RU", "vi-VN", "zh-CT", "zh-CY",
    "zh-HN", "zh-JL", "zh-ME", "zh-MN", "zh-TJ", "zh-WU", "ja-KS", "ja-HK"
  ]

  /** `isSupportedLocale`. */
  predicate IsSupportedLocale(locale: string) {
    locale in SupportedLocales
  }

  class I18n {
    var currentLocale: string
    /** The bundled translation tree of each locale. */
    const translations: map<string, Node>

    ghost predicate Valid()
      reads this
    {
      IsSupportedLocale(currentLocale)
    }

    constructor(translations: map<string, Node>)
      ensures Valid() && currentLocale == "zh-CN" && this.translations == translations
    {
      currentLocale := "zh-CN";
      this.translations := translations;
    }

    /** `setLocale`: switches only to a supported code; anything else is
        ignored. */
    method SetLocale(locale: string)
      requires Valid()
      modifies this
      ensures Valid()
      ensures currentLocale == if IsSupportedLocale(locale) then locale else old(currentLocale)
    {
      if IsSupportedLocale(locale) {
        currentLocale := locale;
      }
    }

    /** `getLocale`: always a supported code. */
    method GetLocale() returns (locale: string)
      requires Valid()
      ensures locale == currentLocale && IsSupportedLocale(locale)
    {
      locale := currentLocale;
    }

    /** `t`: the current locale's string, else the "en-US" one, with the
        options interpolated; the key itself when both lack it. */
    method Translate(key: string, options: map<string, string>) returns (r: string)
      requires Valid()
      ensures Lookup(translations, currentLocale, key).None? ==> r == key
      ensures Lookup(translations, currentLocale, key).Some? ==>
        r == InterpolateVariables(Lookup(translations, currentLocale, key).value, options)
    {
      r := T(translations, currentLocale, key, options);
    }
  }
}
