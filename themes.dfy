/**
 * The theme registry of `src/themes/index.ts`: a JavaScript object from theme
 * id to theme definition, kept in property (insertion) order, plus the pure
 * helpers around it. Untyped values reach `IsThemeDefinition` as `JsValue`s.
 *
 * The shape of a colour set is defined in `src/themes/types.ts`, which is not
 * part of this model: a colour set is a map from colour name to colour string.
 */
module Themes {
  import opened Wrappers
  import opened OrderedMaps

  type Colors = map<string, string>

  datatype ColorPlan = Light | Dark | LightAcrylic | DarkAcrylic

  datatype Theme = Theme(
    id: string,
    name: string,
    light: Colors,
    dark: Colors,
    lightAcrylic: Colors,
    darkAcrylic: Colors
  )

  datatype ThemeOption = ThemeOption(caption: string, value: string)

  /** A JavaScript value, as far as `isThemeDefinition` inspects one. */
  datatype JsValue =
    | Undefined
    | Null
    | Bool(b: bool)
    | Number(n: int)
    | Str(s: string)
    | Object(props: map<string, JsValue>)
    | Array(elems: seq<JsValue>)
    | Function

  /** JavaScript truthiness: `undefined`, `null`, `false`, `0` and `""` are falsy. */
  predicate Truthy(v: JsValue) {
    match v
    case Undefined => false
    case Null => false
    case Bool(b) => b
    case Number(n) => n != 0
    case Str(s) => s != ""
    case _ => true
  }

  /** The `typeof` operator; note that `typeof null` is "object". */
  function TypeOf(v: JsValue): string {
    match v
    case Undefined => "undefined"
    case Null => "object"
    case Bool(_) => "boolean"
    case Number(_) => "number"
    case Str(_) => "string"
    case Object(_) => "object"
    case Array(_) => "object"
    case Function => "function"
  }

  /** A property read `v[key]`; missing properties are `undefined`. */
  function Get(v: JsValue, key: string): JsValue {
    if v.Object? && key in v.props then v.props[key] else Undefined
  }

  /** `isThemeDefinition`. */
  predicate IsThemeDefinition(v: JsValue) {
    if !Truthy(v) || TypeOf(v) != "object" then false
    else
      TypeOf(Get(v, "id")) == "string"
      && TypeOf(Get(v, "name")) == "string"
      && TypeOf(Get(v, "light")) == "object"
      && TypeOf(Get(v, "dark")) == "object"
      && TypeOf(Get(v, "lightAcrylic")) == "object"
      && TypeOf(Get(v, "darkAcrylic")) == "object"
  }

  /** A value of type "object": a plain object, an array or `null`. */
  predicate ObjectLike(v: JsValue) {
    v.Object? || v.Array? || v.Null?
  }

  /** `isThemeDefinition` accepts exactly the plain objects whose `id` and
      `name` are strings and whose four colour plans are object-like; since
      `typeof null` is "object", a plan that is `null` passes too. */
  lemma IsThemeDefinitionShape(v: JsValue)
    ensures IsThemeDefinition(v) <==>
      v.Object?
      && "id" in v.props && v.props["id"].Str?
      && "name" in v.props && v.props["name"].Str?
      && "light" in v.props && ObjectLike(v.props["light"])
      && "dark" in v.props && ObjectLike(v.props["dark"])
      && "lightAcrylic" in v.props && ObjectLike(v.props["lightAcrylic"])
      && "darkAcrylic" in v.props && ObjectLike(v.props["darkAcrylic"])
  {
    assert forall w :: TypeOf(w) == "object" <==> ObjectLike(w);
    assert forall w :: TypeOf(w) == "string" <==> w.Str?;
  }

  /** The colours of `plan` in `theme`: `theme[plan]`. */
  function PlanColors(theme: Theme, plan: ColorPlan): Colors {
    match plan
    case Light => theme.light
    case Dark => theme.dark
    case LightAcrylic => theme.lightAcrylic
    case DarkAcrylic => theme.darkAcrylic
  }

  /** The name a plan has as a property of a theme. */
  function PlanName(plan: ColorPlan): string {
    match plan
    case Light => "light"
    case Dark => "dark"
    case LightAcrylic => "lightAcrylic"
    case DarkAcrylic => "darkAcrylic"
  }

  /** `mapLegacyPlanName`: the six-entry table, and `Light` for anything else. */
  function MapLegacyPlanName(plan: string): (r: ColorPlan)
    ensures plan == "light_acrylic" ==> r == LightAcrylic
    ensures plan == "dark_acrylic" ==> r == DarkAcrylic
    ensures plan !in {"light", "dark", "light_acrylic", "dark_acrylic", "lightAcrylic", "darkAcrylic"} ==> r == Light
  {
    if plan == "light" then Light
    else if plan == "dark" then Dark
    else if plan == "light_acrylic" then LightAcrylic
    else if plan == "dark_acrylic" then DarkAcrylic
    else if plan == "lightAcrylic" then LightAcrylic
    else if plan == "darkAcrylic" then DarkAcrylic
    else Light
  }

  /** Every plan's own name maps back to that plan, so mapping is idempotent
      on its outputs. */
  lemma MapLegacyPlanNameIdempotent(plan: string)
    ensures MapLegacyPlanName(PlanName(MapLegacyPlanName(plan))) == MapLegacyPlanName(plan)
    ensures forall p :: MapLegacyPlanName(PlanName(p)) == p
  {
    forall p: ColorPlan ensures MapLegacyPlanName(PlanName(p)) == p {
      match p
      case Light =>
      case Dark =>
      case LightAcrylic =>
      case DarkAcrylic =>
    }
  }

  /** Every theme sits under its own id. */
  ghost predicate Keyed(themes: OMap<Theme>) {
    Valid(themes) && forall k :: k in themes.entries ==> themes.entries[k].id == k
  }

  /** `getThemeOptions`: one option per theme, in registry order. */
  function ThemeOptions(themes: OMap<Theme>): (r: seq<ThemeOption>)
    requires Valid(themes)
    ensures |r| == |themes.keys|
    ensures forall i :: 0 <= i < |r| ==>
      r[i] == ThemeOption(themes.entries[themes.keys[i]].name, themes.entries[themes.keys[i]].id)
  {
    seq(|themes.keys|, i requires 0 <= i < |themes.keys| =>
      ThemeOption(themes.entries[themes.keys[i]].name, themes.entries[themes.keys[i]].id))
  }

  /** The options name each registered theme once: their values are the
      registered ids, without repetition. */
  lemma ThemeOptionsCover(themes: OMap<Theme>)
    requires Keyed(themes)
    ensures forall id :: id in themes.entries <==> exists i :: 0 <= i < |ThemeOptions(themes)| && ThemeOptions(themes)[i].value == id
    ensures forall i, j :: 0 <= i < j < |ThemeOptions(themes)| ==> ThemeOptions(themes)[i].value != ThemeOptions(themes)[j].value
  {
    var r := ThemeOptions(themes);
    forall id | id in themes.entries
      ensures exists i :: 0 <= i < |r| && r[i].value == id
    {
      var i :| 0 <= i < |themes.keys| && themes.keys[i] == id;
      assert r[i].value == id;
    }
  }

  class ThemeRegistry {
    var themes: OMap<Theme>

    ghost predicate Valid()
      reads this
    {
      Keyed(themes)
    }

    constructor()
      ensures Valid() && themes == Empty()
    {
      themes := Empty();
    }

    /** `getThemeById`. */
    method GetThemeById(id: string) returns (r: Option<Theme>)
      requires Valid()
      ensures id in themes.entries <==> r.Some?
      ensures r.Some? ==> r.value == themes.entries[id] && r.value.id == id
    {
      r := if id in themes.entries then Some(themes.entries[id]) else None;
    }

    /** `registerTheme`: adds the theme under its id, overwriting (in place)
        any theme with that id; every other entry stays. */
    method RegisterTheme(theme: Theme)
      requires Valid()
      modifies this
      ensures Valid()
      ensures themes == Put(old(themes), theme.id, theme)
      ensures themes.entries == old(themes).entries[theme.id := theme]
    {
      themes := Put(themes, theme.id, theme);
    }

    /** `unregisterTheme`: removes the theme and answers true when one is
        registered under `id`; otherwise answers false and changes nothing. */
    method UnregisterTheme(id: string) returns (removed: bool)
      requires Valid()
      modifies this
      ensures Valid()
      ensures removed <==> id in old(themes).entries
      ensures removed ==> themes == Remove(old(themes), id) && themes.entries == old(themes).entries - {id}
      ensures !removed ==> themes == old(themes)
    {
      if id in themes.entries {
        themes := Remove(themes, id);
        return true;
      }
      return false;
    }

    /** `getThemeColors`: nothing for an unknown id, else that plan's colours. */
    method GetThemeColors(themeId: string, plan: ColorPlan) returns (r: Option<Colors>)
      requires Valid()
      ensures themeId !in themes.entries ==> r == None
      ensures themeId in themes.entries ==> r == Some(PlanColors(themes.entries[themeId], plan))
    {
      var theme := GetThemeById(themeId);
      if theme.None? {
        return None;
      }
      return Some(PlanColors(theme.value, plan));
    }

    /** `getThemeColorValue`: one colour of that plan, when both exist. */
    method GetThemeColorValue(themeId: string, plan: ColorPlan, colorType: string) returns (r: Option<string>)
      requires Valid()
      ensures r.Some? <==> themeId in themes.entries && colorType in PlanColors(themes.entries[themeId], plan)
      ensures r.Some? ==> r.value == PlanColors(themes.entries[themeId], plan)[colorType]
    {
      var colors := GetThemeColors(themeId, plan);
      if colors.Some? && colorType in colors.value {
        return Some(colors.value[colorType]);
      }
      return None;
    }

    /** `getAllThemes`: a copy of the registry, which later registrations do
        not affect. */
    method GetAllThemes() returns (r: OMap<Theme>)
      requires Valid()
      ensures Keyed(r) && r == themes
    {
      r := themes;
    }

    /** `getThemeOptions`. */
    method GetThemeOptions() returns (r: seq<ThemeOption>)
      requires Valid()
      ensures r == ThemeOptions(themes)
    {
      r := ThemeOptions(themes);
    }
  }
}
