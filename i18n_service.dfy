/**
 * The back-end translation service of `src-tauri/src/services/i18n.rs`: flat
 * translation tables per locale, the current locale, and the registry of
 * locale-change callbacks under increasing ids.
 *
 * Callbacks are represented by their ids only; invoking them is recorded as
 * the list of calls `SetLocale` makes. The `HashMap` iteration orders (of
 * the callbacks and of the options) are parameters.
 */
module I18nService {
  import opened Strings

  type Table = map<string, string>

  const DefaultLocale := "zh-CN"

  /** The tables loaded by `I18nService::new`. */
  const InitialTranslations: map<string, Table> := map[
    "zh-CN" := map["app.title" := "SeaLantern", "app.subtitle" := "Minecraft 服务器管理器"],
    "en-US" := map["app.title" := "SeaLantern", "app.subtitle" := "Minecraft Server Manager"],
    "zh-TW" := map["app.title" := "SeaLantern", "app.subtitle" := "Minecraft 伺服器管理器"]
  ]

  /** One invocation of a locale-change callback: its id, then the old and
      the new locale. */
  datatype LocaleChange = LocaleChange(callback: nat, oldLocale: string, newLocale: string)

  /** `t`: the current locale's entry, else the "zh-CN" entry (looked up
      only when the locale is another one), else the key itself. */
  function Translate(translations: map<string, Table>, locale: string, key: string): (r: string)
    ensures locale in translations && key in translations[locale] ==> r == translations[locale][key]
    ensures (DefaultLocale in translations && key in translations[DefaultLocale] && r == translations[DefaultLocale][key])
      || (locale in translations && key in translations[locale] && r == translations[locale][key])
      || r == key
  {
    if locale in translations && key in translations[locale] then translations[locale][key]
    else if locale != DefaultLocale && DefaultLocale in translations && key in translations[DefaultLocale] then
      translations[DefaultLocale][key]
    else key
  }

  /** When the locale lacks the key (or has no table), the answer is what
      "zh-CN" gives. */
  lemma TranslateFallsBack(translations: map<string, Table>, locale: string, key: string)
    requires locale !in translations || key !in translations[locale]
    ensures Translate(translations, locale, key) == Translate(translations, DefaultLocale, key)
  {
  }

  /** `result.replace("{k}", v)` for each option pair in turn. */
  function ReplaceOptions(text: string, options: seq<(string, string)>): string
    decreases |options|
  {
    if options == [] then text
    else ReplaceOptions(Replace(text, "{" + options[0].0 + "}", options[0].1), options[1..])
  }

  /** A text without any of the placeholders is left unchanged. */
  lemma {:induction false} ReplaceOptionsAbsent(text: string, options: seq<(string, string)>)
    requires forall i :: 0 <= i < |options| ==> IndexOf(text, "{" + options[i].0 + "}").None?
    ensures ReplaceOptions(text, options) == text
    decreases |options|
  {
    if options != [] {
      ReplaceAbsent(text, "{" + options[0].0 + "}", options[0].1);
      ReplaceOptionsAbsent(text, options[1..]);
    }
  }

  /** A text that is a single placeholder becomes its value. */
  lemma ReplaceOptionsWhole(k: string, v: string)
    ensures ReplaceOptions("{" + k + "}", [(k, v)]) == v
  {
    ReplaceWhole("{" + k + "}", v);
  }

  /** `order` lists the members of `ids`, each once. */
  ghost predicate Enumerates(order: seq<nat>, ids: set<nat>) {
    (forall i, j :: 0 <= i < j < |order| ==> order[i] != order[j])
    && (forall id :: id in ids <==> id in order)
  }

  class Service {
    var translations: map<string, Table>
    var locale: string
    /** The ids of the registered callbacks. */
    var callbacks: set<nat>
    var nextCallbackId: nat

    /** Every registered id was issued, and ids are issued from 1. */
    ghost predicate Valid()
      reads this
    {
      nextCallbackId >= 1 && forall id :: id in callbacks ==> 1 <= id < nextCallbackId
    }

    /** `I18nService::new`. */
    constructor()
      ensures Valid()
      ensures translations == InitialTranslations && locale == DefaultLocale
      ensures callbacks == {} && nextCallbackId == 1
    {
      translations := InitialTranslations;
      locale := DefaultLocale;
      callbacks := {};
      nextCallbackId := 1;
    }

    /** `set_locale`: stores any locale, supported or not, then calls every
        registered callback once, in `order`, with the old and the new locale. */
    method SetLocale(newLocale: string, order: seq<nat>) returns (calls: seq<LocaleChange>)
      requires Valid()
      requires Enumerates(order, callbacks)
      modifies this
      ensures Valid()
      ensures locale == newLocale
      ensures translations == old(translations) && callbacks == old(callbacks) && nextCallbackId == old(nextCallbackId)
      ensures |calls| == |order| == |callbacks|
      ensures forall i :: 0 <= i < |calls| ==> calls[i] == LocaleChange(order[i], old(locale), newLocale)
      ensures forall id :: id in callbacks <==> exists i :: 0 <= i < |calls| && calls[i].callback == id
    {
      var oldLocale := locale;
      locale := newLocale;
      calls := [];
      var i := 0;
      while i < |order|
        invariant 0 <= i <= |order|
        invariant |calls| == i
        invariant forall j :: 0 <= j < i ==> calls[j] == LocaleChange(order[j], oldLocale, newLocale)
      {
        calls := calls + [LocaleChange(order[i], oldLocale, newLocale)];
        i := i + 1;
      }
      assert |callbacks| == |order| by {
        DistinctCard(order, callbacks);
      }
      forall id | id in callbacks ensures exists i :: 0 <= i < |calls| && calls[i].callback == id {
        var k :| 0 <= k < |order| && order[k] == id;
        assert calls[k].callback == id;
      }
    }

    /** `on_locale_change`: registers a callback under the next id. */
    method OnLocaleChange() returns (token: nat)
      requires Valid()
      modifies this
      ensures Valid()
      ensures token == old(nextCallbackId) && token !in old(callbacks) && token >= 1
      ensures callbacks == old(callbacks) + {token} && nextCallbackId == old(nextCallbackId) + 1
      ensures translations == old(translations) && locale == old(locale)
    {
      token := nextCallbackId;
      nextCallbackId := nextCallbackId + 1;
      callbacks := callbacks + {token};
    }

    /** `remove_locale_callback`: only that id goes; an unknown id changes
        nothing. */
    method RemoveLocaleCallback(token: nat)
      requires Valid()
      modifies this
      ensures Valid()
      ensures callbacks == old(callbacks) - {token}
      ensures token !in old(callbacks) ==> callbacks == old(callbacks)
      ensures translations == old(translations) && locale == old(locale) && nextCallbackId == old(nextCallbackId)
    {
      callbacks := callbacks - {token};
    }

    /** `t_with_options`: `t(key)` with "{k}" replaced by `v` for each option
        pair, in the map's iteration order `options`. */
    method TWithOptions(key: string, options: seq<(string, string)>) returns (result: string)
      ensures result == ReplaceOptions(Translate(translations, locale, key), options)
    {
      result := Translate(translations, locale, key);
      var i := 0;
      while i < |options|
        invariant 0 <= i <= |options|
        invariant ReplaceOptions(result, options[i..]) == ReplaceOptions(Translate(translations, locale, key), options)
      {
        assert options[i..][1..] == options[i + 1..];
        var (k, v) := options[i];
        result := Replace(result, "{" + k + "}", v);
        i := i + 1;
      }
    }

    /** `get_all_translations`: the current locale's table, or an empty one. */
    method GetAllTranslations() returns (r: Table)
      ensures locale in translations ==> r == translations[locale]
      ensures locale !in translations ==> r == map[]
    {
      r := if locale in translations then translations[locale] else map[];
    }
  }

  /** A list of distinct ids covering a set has the set's size. */
  lemma {:induction false} DistinctCard(order: seq<nat>, ids: set<nat>)
    requires Enumerates(order, ids)
    ensures |ids| == |order|
    decreases |order|
  {
    if order != [] {
      var rest := order[1..];
      var smaller := ids - {order[0]};
      forall id ensures id in smaller <==> id in rest {
        if id in rest {
          var k :| 0 <= k < |rest| && rest[k] == id;
          assert order[k + 1] == id;
        }
        if id in smaller {
          var k :| 0 <= k < |order| && order[k] == id;
          assert k != 0;
          assert rest[k - 1] == id;
        }
      }
      DistinctCard(rest, smaller);
    } else {
      assert forall id :: id !in ids;
      assert ids == {};
    }
  }
}
