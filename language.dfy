/**
 * The front-end i18n of `src/language/index.ts`. It is the same lookup as
 * `src/locales/index.ts`, but the supported codes are those of the language
 * files found at build time (a parameter here), and a locale's translation
 * tree can be replaced at run time.
 *
 * The current locale starts as "zh-CN" even if no such file was found; after
 * that it only ever changes to a supported code.
 */
module Language {
  import opened Translation
  import Strings

  class I18n {
    var currentLocale: string
    var translations: map<string, Node>
    /** The codes of the language files found, in discovery order. */
    const supportedLocales: seq<string>

    /** Every supported code has a tree, and the current locale is supported
        unless it is still the initial "zh-CN". */
    ghost predicate Valid()
      reads this
    {
      (currentLocale == "zh-CN" || currentLocale in supportedLocales)
      && forall l :: l in supportedLocales ==> l in translations
    }

    /** The files found at build time: each code with its tree. */
    constructor(supportedLocales: seq<string>, translations: map<string, Node>)
      requires forall l :: l in supportedLocales ==> l in translations
      ensures Valid()
      ensures currentLocale == "zh-CN" && this.translations == translations
      ensures this.supportedLocales == supportedLocales
    {
      currentLocale := "zh-CN";
      this.translations := translations;
      this.supportedLocales := supportedLocales;
    }

    predicate IsSupportedLocale(locale: string)
    {
      locale in supportedLocales
    }

    /** `setTranslations`: replaces the tree of a supported locale; for any
        other code nothing changes. */
    method SetTranslations(locale: string, data: Node)
      requires Valid()
      modifies this
      ensures Valid()
      ensures translations == if IsSupportedLocale(locale) then old(translations)[locale := data] else old(translations)
      ensures currentLocale == old(currentLocale)
    {
      if IsSupportedLocale(locale) {
        translations := translations[locale := data];
      }
    }

    /** `setLocale`: switches only to a supported code. */
    method SetLocale(locale: string)
      requires Valid()
      modifies this
      ensures Valid()
      ensures currentLocale == if IsSupportedLocale(locale) then locale else old(currentLocale)
      ensures translations == old(translations)
    {
      if IsSupportedLocale(locale) {
        currentLocale := locale;
      }
    }

    /** `t`: the current locale's string, else the "en-US" one, with the
        options interpolated; the key itself when both lack it (a locale
        without a tree resolves nothing). */
    method Translate(key: string, options: map<string, string>) returns (r: string)
      ensures Lookup(translations, currentLocale, key).None? ==> r == key
      ensures Lookup(translations, currentLocale, key).Some? ==>
        r == InterpolateVariables(Lookup(translations, currentLocale, key).value, options)
    {
      r := T(translations, currentLocale, key, options);
    }
  }

  /** A locale without a tree contributes nothing: the lookup is the
      fallback locale's. */
  lemma MissingTableFallsBack(tables: map<string, Node>, current: string, key: string)
    requires current !in tables
    ensures Lookup(tables, current, key) == Lookup(tables, FallbackLocale, key)
  {
    var keys := Strings.Split(key, '.');
    WalkFromNothing(keys);
    LookupChain(tables, current, key);
  }
}
