/**
 * The plugin context-menu store of `src/stores/contextMenuStore.ts`.
 *
 * Plugins register menu items per context ("global" or a page-specific name).
 * The registry is a map from context to a map from plugin id to that plugin's
 * items, both ordered by insertion as JavaScript `Map`s are. The visible menu
 * is a separate record of position, context, target data and items.
 *
 * The event listener that feeds `HandleEvent` and the `invoke` that reports a
 * clicked item to the backend are not part of this model.
 */
module ContextMenu {
  import opened Wrappers
  import opened OrderedMaps

  datatype RawItem = RawItem(id: string, caption: string, icon: Option<string>)
  datatype MenuItem = MenuItem(id: string, caption: string, icon: Option<string>, pluginId: string)

  /** One context's menus: plugin id to that plugin's items. */
  type PluginMenus = OMap<seq<MenuItem>>
  /** All menus: context to its plugins' menus. */
  type Registry = OMap<PluginMenus>

  datatype MenuState = MenuState(
    visible: bool,
    x: int,
    y: int,
    context: string,
    targetData: string,
    items: seq<MenuItem>
  )

  const Global := "global"

  // ---------------------------------------------------------------- registry

  /** The raw items of a plugin, each tagged with the plugin's id. */
  function Tag(raw: seq<RawItem>, pluginId: string): (r: seq<MenuItem>)
    ensures |r| == |raw|
    ensures forall i :: 0 <= i < |r| ==>
      r[i].pluginId == pluginId && r[i].id == raw[i].id && r[i].caption == raw[i].caption && r[i].icon == raw[i].icon
  {
    seq(|raw|, i requires 0 <= i < |raw| => MenuItem(raw[i].id, raw[i].caption, raw[i].icon, pluginId))
  }

  ghost predicate Tagged(items: seq<MenuItem>, pluginId: string) {
    forall i :: 0 <= i < |items| ==> items[i].pluginId == pluginId
  }

  /** A registered context has at least one plugin, and each plugin's items
      carry that plugin's id. */
  ghost predicate ContextOk(inner: PluginMenus) {
    Valid(inner) && Size(inner) > 0 && forall p :: p in inner.entries ==> Tagged(inner.entries[p], p)
  }

  ghost predicate WellFormed(reg: Registry) {
    Valid(reg) && forall c :: c in reg.entries ==> ContextOk(reg.entries[c])
  }

  /** The menus of `ctx`, or an empty map when `ctx` is not registered. */
  function MenusOf(reg: Registry, ctx: string): PluginMenus {
    if ctx in reg.entries then reg.entries[ctx] else Empty()
  }

  /** A "register" event: `pluginId`'s list in `ctx` becomes the tagged raw
      items, replacing any earlier list; nothing else changes. */
  function Registered(reg: Registry, ctx: string, pluginId: string, raw: seq<RawItem>): (r: Registry)
    ensures WellFormed(reg) ==> WellFormed(r)
    ensures ctx in r.entries && r.entries[ctx].entries == MenusOf(reg, ctx).entries[pluginId := Tag(raw, pluginId)]
    ensures forall c :: c != ctx ==> (c in r.entries <==> c in reg.entries)
    ensures forall c :: c != ctx && c in reg.entries ==> r.entries[c] == reg.entries[c]
  {
    var inner := Put(MenusOf(reg, ctx), pluginId, Tag(raw, pluginId));
    assert WellFormed(reg) ==> ContextOk(inner) by {
      if WellFormed(reg) {
        PutTagged(MenusOf(reg, ctx), pluginId, Tag(raw, pluginId));
      }
    }
    Put(reg, ctx, inner)
  }

  /** Adding a plugin's tagged items to a context's menus gives a valid,
      non-empty context. */
  lemma PutTagged(inner: PluginMenus, pluginId: string, items: seq<MenuItem>)
    requires Valid(inner) && forall p :: p in inner.entries ==> Tagged(inner.entries[p], p)
    requires Tagged(items, pluginId)
    ensures ContextOk(Put(inner, pluginId, items))
  {
    var r := Put(inner, pluginId, items);
    assert pluginId in r.keys;
  }

  /** An "unregister" event: `pluginId` leaves `ctx`, and `ctx` goes when no
      plugin is left in it; an unknown context changes nothing. */
  function Unregistered(reg: Registry, ctx: string, pluginId: string): (r: Registry)
    ensures WellFormed(reg) ==> WellFormed(r)
    ensures WellFormed(reg) ==>
      (ctx in r.entries <==> ctx in reg.entries && reg.entries[ctx].entries - {pluginId} != map[])
    ensures ctx in r.entries && ctx in reg.entries ==> r.entries[ctx].entries == reg.entries[ctx].entries - {pluginId}
    ensures forall c :: c != ctx ==> (c in r.entries <==> c in reg.entries)
    ensures forall c :: c != ctx && c in reg.entries ==> r.entries[c] == reg.entries[c]
  {
    if ctx !in reg.entries then reg
    else
      var inner := Remove(reg.entries[ctx], pluginId);
      if Size(inner) == 0 then
        assert Valid(reg.entries[ctx]) ==> inner.entries == map[] by {
          if Valid(reg.entries[ctx]) {
            SizeZero(inner);
          }
        }
        Remove(reg, ctx)
      else
        assert Valid(reg.entries[ctx]) ==> inner.entries != map[] by {
          if Valid(reg.entries[ctx]) {
            SizeZero(inner);
          }
        }
        Put(reg, ctx, inner)
  }

  /** Registering a plugin that `ctx` did not have and then unregistering it
      gives back exactly the registry it started from, key order included. */
  lemma RegisterThenUnregister(reg: Registry, ctx: string, pluginId: string, raw: seq<RawItem>)
    requires WellFormed(reg)
    requires ctx !in reg.entries || pluginId !in reg.entries[ctx].entries
    ensures Unregistered(Registered(reg, ctx, pluginId, raw), ctx, pluginId) == reg
  {
    var items := Tag(raw, pluginId);
    var inner := MenusOf(reg, ctx);
    var grown := Put(inner, pluginId, items);
    RemovePut(inner, pluginId, items);
    assert Remove(grown, pluginId) == inner;
    if ctx in reg.entries {
      assert Size(inner) > 0;
      PutPut(reg, ctx, grown, inner);
      PutSame(reg, ctx);
    } else {
      RemovePut(reg, ctx, grown);
    }
  }

  /** One step of `cleanupPluginMenus`: a context holding the plugin is
      treated like an "unregister" event; any other context is skipped. */
  function CleanStep(reg: Registry, ctx: string, pluginId: string): Registry {
    if ctx in reg.entries && pluginId in reg.entries[ctx].entries then Unregistered(reg, ctx, pluginId) else reg
  }

  /** `CleanStep` applied to each of `ctxs` in turn. */
  function CleanupFrom(reg: Registry, ctxs: seq<string>, pluginId: string): Registry
    decreases |ctxs|
  {
    if ctxs == [] then reg else CleanupFrom(CleanStep(reg, ctxs[0], pluginId), ctxs[1..], pluginId)
  }

  /** `r` is `reg` with `pluginId` taken out of the contexts in `done`, those
      contexts dropped when nothing else was left in them, and every other
      context as it was. */
  ghost predicate CleanedOver(reg: Registry, r: Registry, done: set<string>, pluginId: string) {
    (forall c :: c in r.entries <==> c in reg.entries && (c in done ==> reg.entries[c].entries - {pluginId} != map[]))
    && (forall c :: c in r.entries && c in done ==> r.entries[c].entries == reg.entries[c].entries - {pluginId})
    && (forall c :: c in r.entries && c !in done ==> r.entries[c] == reg.entries[c])
  }

  lemma CleanStepEffect(reg: Registry, ctx: string, pluginId: string)
    requires WellFormed(reg)
    ensures WellFormed(CleanStep(reg, ctx, pluginId))
    ensures CleanedOver(reg, CleanStep(reg, ctx, pluginId), {ctx}, pluginId)
  {
    if ctx in reg.entries && pluginId !in reg.entries[ctx].entries {
      SizeZero(reg.entries[ctx]);
      assert reg.entries[ctx].entries - {pluginId} == reg.entries[ctx].entries;
    }
  }

  lemma CleanedCompose(a: Registry, b: Registry, c: Registry, x: set<string>, y: set<string>, pluginId: string)
    requires CleanedOver(a, b, x, pluginId) && CleanedOver(b, c, y, pluginId)
    ensures CleanedOver(a, c, x + y, pluginId)
  {
    forall k | k in a.entries && k in x && k in y
      ensures a.entries[k].entries - {pluginId} - {pluginId} == a.entries[k].entries - {pluginId}
    {
    }
  }

  /** After the steps for `ctxs`, each of those contexts has lost `pluginId`
      (and is gone if nothing else was left in it); every other context and
      every other plugin is as before. */
  lemma {:induction false} CleanupFromEffect(reg: Registry, ctxs: seq<string>, pluginId: string)
    requires WellFormed(reg)
    ensures WellFormed(CleanupFrom(reg, ctxs, pluginId))
    ensures CleanedOver(reg, CleanupFrom(reg, ctxs, pluginId), (set c | c in ctxs), pluginId)
    decreases |ctxs|
  {
    if ctxs == [] {
      assert (set c | c in ctxs) == {};
    } else {
      var s1 := CleanStep(reg, ctxs[0], pluginId);
      CleanStepEffect(reg, ctxs[0], pluginId);
      CleanupFromEffect(s1, ctxs[1..], pluginId);
      CleanedCompose(reg, s1, CleanupFrom(reg, ctxs, pluginId), {ctxs[0]}, (set c | c in ctxs[1..]), pluginId);
      assert (set c | c in ctxs) == {ctxs[0]} + (set c | c in ctxs[1..]) by {
        assert ctxs == [ctxs[0]] + ctxs[1..];
      }
    }
  }

  /** `cleanupPluginMenus`: the effect of a cleanup over all contexts. */
  lemma CleanupEffect(reg: Registry, pluginId: string)
    requires WellFormed(reg)
    ensures var r := CleanupFrom(reg, reg.keys, pluginId);
      WellFormed(r)
      && (forall c :: c in r.entries ==> pluginId !in r.entries[c].entries)
      && (forall c :: c in r.entries <==> c in reg.entries && reg.entries[c].entries - {pluginId} != map[])
      && (forall c :: c in r.entries ==> r.entries[c].entries == reg.entries[c].entries - {pluginId})
  {
    CleanupFromEffect(reg, reg.keys, pluginId);
    var r := CleanupFrom(reg, reg.keys, pluginId);
    forall c | c in r.entries ensures pluginId !in r.entries[c].entries {
      assert c in reg.keys;
    }
  }

  // ---------------------------------------------------------------- display

  /** The items of one context, plugin by plugin in registration order. */
  function Collected(inner: PluginMenus): seq<MenuItem>
    requires Valid(inner)
  {
    Flatten(inner.keys, inner.entries)
  }

  /** The items a menu for `ctx` shows: `ctx`'s own, then the global ones
      unless `ctx` is the global context itself. */
  function Shown(reg: Registry, ctx: string): seq<MenuItem>
    requires WellFormed(reg)
  {
    (if ctx in reg.entries && Size(reg.entries[ctx]) > 0 then Collected(reg.entries[ctx]) else [])
    + (if ctx != Global && Global in reg.entries && Size(reg.entries[Global]) > 0 then Collected(reg.entries[Global]) else [])
  }

  /** Every shown item was registered by a plugin of `ctx` or of the global
      context, and carries that plugin's id. */
  lemma ShownProvenance(reg: Registry, ctx: string, item: MenuItem)
    requires WellFormed(reg)
    requires item in Shown(reg, ctx)
    ensures (ctx in reg.entries && item.pluginId in reg.entries[ctx].entries
             && item in reg.entries[ctx].entries[item.pluginId])
         || (ctx != Global && Global in reg.entries && item.pluginId in reg.entries[Global].entries
             && item in reg.entries[Global].entries[item.pluginId])
  {
    var c := if ctx in reg.entries && item in (if Size(reg.entries[ctx]) > 0 then Collected(reg.entries[ctx]) else []) then ctx else Global;
    var inner := reg.entries[c];
    FlattenFrom(inner.keys, inner.entries, item);
    var p :| p in inner.keys && item in inner.entries[p];
    var i :| 0 <= i < |inner.entries[p]| && inner.entries[p][i] == item;
    assert Tagged(inner.entries[p], p);
  }

  /** Conversely every item registered for `ctx`, or for the global context
      when `ctx` is another one, is shown. */
  lemma ShownComplete(reg: Registry, ctx: string, c: string, pluginId: string, item: MenuItem)
    requires WellFormed(reg)
    requires c == ctx || (c == Global && ctx != Global)
    requires c in reg.entries && pluginId in reg.entries[c].entries && item in reg.entries[c].entries[pluginId]
    ensures item in Shown(reg, ctx)
  {
    var inner := reg.entries[c];
    FlattenHas(inner.keys, inner.entries, pluginId, item);
  }

  // ---------------------------------------------------------------- store

  class ContextMenuStore {
    var visible: bool
    var x: int
    var y: int
    var context: string
    var targetData: string
    var items: seq<MenuItem>
    var menus: Registry

    ghost predicate Valid()
      reads this
    {
      WellFormed(menus)
    }

    function State(): MenuState
      reads this
    {
      MenuState(visible, x, y, context, targetData, items)
    }

    constructor()
      ensures Valid()
      ensures State() == MenuState(false, 0, 0, "", "", []) && menus == Empty()
    {
      visible, x, y, context, targetData, items := false, 0, 0, "", "", [];
      menus := Empty();
    }

    /** A plugin event: "register", "unregister", or any other action, which
        is ignored. The displayed menu is not touched. */
    method HandleEvent(action: string, pluginId: string, ctx: string, raw: seq<RawItem>)
      requires Valid()
      modifies this
      ensures Valid()
      ensures menus == (if action == "register" then Registered(old(menus), ctx, pluginId, raw)
                        else if action == "unregister" then Unregistered(old(menus), ctx, pluginId)
                        else old(menus))
      ensures State() == old(State())
    {
      ghost var before := menus;
      if action == "register" {
        if ctx !in menus.entries {
          menus := Put(menus, ctx, Empty());
        }
        assert menus.entries[ctx] == MenusOf(before, ctx);
        var contextMap := menus.entries[ctx];
        var menuItems := Tag(raw, pluginId);
        var updated := Put(contextMap, pluginId, menuItems);
        PutPut(before, ctx, Empty(), updated);
        menus := Put(menus, ctx, updated);
        assert menus == Registered(before, ctx, pluginId, raw);
      } else if action == "unregister" {
        if ctx in menus.entries {
          DropPlugin(ctx, pluginId);
        }
      }
    }

    /** Deletes `pluginId` from the registered context `ctx`, then deletes
        `ctx` when no plugin is left in it. */
    method DropPlugin(ctx: string, pluginId: string)
      requires Valid() && ctx in menus.entries
      modifies this
      ensures Valid()
      ensures menus == Unregistered(old(menus), ctx, pluginId)
      ensures State() == old(State())
    {
      ghost var before := menus;
      var contextMap := Remove(menus.entries[ctx], pluginId);
      menus := Put(menus, ctx, contextMap);
      if Size(contextMap) == 0 {
        RemovePut(before, ctx, contextMap);
        menus := Remove(menus, ctx);
      }
    }

    /** The items of one context's plugins in insertion order. */
    method CollectItems(inner: PluginMenus) returns (all: seq<MenuItem>)
      requires OrderedMaps.Valid(inner)
      ensures all == Collected(inner)
    {
      all := [];
      var i := 0;
      while i < |inner.keys|
        invariant 0 <= i <= |inner.keys|
        invariant all == Flatten(inner.keys[..i], inner.entries)
      {
        assert inner.keys[..i + 1][..i] == inner.keys[..i];
        all := all + inner.entries[inner.keys[i]];
        i := i + 1;
      }
      assert inner.keys[..i] == inner.keys;
    }

    /** Opens the menu for `ctx` at (posX, posY) when there is anything to
        show; with no items nothing changes. */
    method ShowContextMenu(ctx: string, posX: int, posY: int, data: string)
      requires Valid()
      modifies this
      ensures menus == old(menus)
      ensures Shown(menus, ctx) == [] ==> State() == old(State())
      ensures Shown(menus, ctx) != [] ==> State() == MenuState(true, posX, posY, ctx, data, Shown(menus, ctx))
    {
      var own: seq<MenuItem> := [];
      if ctx in menus.entries && Size(menus.entries[ctx]) > 0 {
        own := CollectItems(menus.entries[ctx]);
      }
      var global: seq<MenuItem> := [];
      if ctx != Global && Global in menus.entries && Size(menus.entries[Global]) > 0 {
        global := CollectItems(menus.entries[Global]);
      }
      var allItems := own + global;
      assert allItems == Shown(menus, ctx);
      if |allItems| == 0 {
        return;
      }
      context := ctx;
      targetData := data;
      items := allItems;
      x := posX;
      y := posY;
      visible := true;
    }

    /** Closes the menu; the last position is kept. */
    method HideContextMenu()
      modifies this
      ensures State() == MenuState(false, old(x), old(y), "", "", [])
      ensures menus == old(menus)
    {
      visible := false;
      items := [];
      context := "";
      targetData := "";
    }

    /** Removes `pluginId` from every context, dropping contexts left empty. */
    method CleanupPluginMenus(pluginId: string)
      requires Valid()
      modifies this
      ensures Valid()
      ensures menus == CleanupFrom(old(menus), old(menus).keys, pluginId)
      ensures State() == old(State())
    {
      var ctxs := menus.keys;
      var i := 0;
      while i < |ctxs|
        invariant 0 <= i <= |ctxs|
        invariant WellFormed(menus)
        invariant CleanupFrom(menus, ctxs[i..], pluginId) == CleanupFrom(old(menus), ctxs, pluginId)
        invariant State() == old(State())
      {
        var ctx := ctxs[i];
        assert ctxs[i..][1..] == ctxs[i + 1..];
        if ctx in menus.entries && pluginId in menus.entries[ctx].entries {
          DropPlugin(ctx, pluginId);
        }
        i := i + 1;
      }
    }

    method GetState() returns (s: MenuState)
      ensures s.visible == visible && s.x == x && s.y == y
      ensures s.context == context && s.targetData == targetData && s.items == items
    {
      s := MenuState(visible, x, y, context, targetData, items);
    }

    /** Whether `ctx` has a menu: exactly when it is registered, since the
        registry never keeps an empty context. */
    method HasMenuItems(ctx: string) returns (b: bool)
      requires Valid()
      ensures b <==> ctx in menus.entries
    {
      b := ctx in menus.entries && Size(menus.entries[ctx]) > 0;
    }
  }
}
