/** The menu editor of src/app/pages/admin/MenuCustomization.tsx without its
    rendering: the five-item template, loading item visibility from a stored
    menu config, toggling, dragging into a new order, building the config that
    is saved, and the preview. The React state setters replace whole values, so
    the page state is a value and each handler a function of it. */
module MenuPage {

  import opened Basics
  import opened Seqs
  import opened Strings
  import opened Schema
  import TenantApi

  datatype MenuItem = MenuItem(id: string, key: string, text: string, visible: bool)

  /** `menuItemsTemplate`: every section, visible, in the default order. */
  const MenuItemsTemplate: seq<MenuItem> := [
    MenuItem("home", "showHome", "Home", true),
    MenuItem("details", "showDetails", "Detail Acara", true),
    MenuItem("rsvp", "showRsvp", "RSVP", true),
    MenuItem("gallery", "showGallery", "Galeri", true),
    MenuItem("wishes", "showWishes", "Ucapan & Doa", true)
  ]

  const TemplateIds: seq<string> := ["home", "details", "rsvp", "gallery", "wishes"]

  function ItemId(item: MenuItem): string { item.id }

  /** `items.map(i => i.id)`. */
  function Ids(items: seq<MenuItem>): (r: seq<string>)
    ensures |r| == |items| && forall i :: 0 <= i < |items| ==> r[i] == items[i].id
  {
    Map(items, ItemId)
  }

  lemma IdsOfTemplate()
    ensures Ids(MenuItemsTemplate) == TemplateIds
  {
  }

  // ---- loadData ----

  /** `config[key]` for the five flag columns; any other key reads `undefined`,
      which the page treats as hidden. */
  function Flag(c: MenuConfig, key: string): bool {
    if key == "showHome" then c.showHome
    else if key == "showDetails" then c.showDetails
    else if key == "showRsvp" then c.showRsvp
    else if key == "showGallery" then c.showGallery
    else if key == "showWishes" then c.showWishes
    else false
  }

  /** The mapping in `loadData`: the template, with each item's visibility read
      from the stored config. */
  function LoadItems(c: MenuConfig): (r: seq<MenuItem>)
    ensures Ids(r) == TemplateIds
    ensures r[0].visible == c.showHome && r[1].visible == c.showDetails && r[2].visible == c.showRsvp
    ensures r[3].visible == c.showGallery && r[4].visible == c.showWishes
    ensures forall i :: 0 <= i < 5 ==> r[i].key == MenuItemsTemplate[i].key && r[i].text == MenuItemsTemplate[i].text
  {
    seq(|MenuItemsTemplate|, i requires 0 <= i < |MenuItemsTemplate| =>
      MenuItemsTemplate[i].(visible := Flag(c, MenuItemsTemplate[i].key)))
  }

  /** The page state touched by the handlers. */
  datatype MenuPageState = MenuPageState(config: Option<MenuConfig>, items: seq<MenuItem>, coupleName: string)

  const InitialMenuPage := MenuPageState(None, MenuItemsTemplate, "")

  /** `loadData(uid)`: with no wedding for the user (or a failed read) the page
      navigates away and keeps its state; with a wedding but no config only the
      couple name changes. */
  function LoadData(s: DbState, userId: string, st: MenuPageState, weddingFault: bool, configFault: bool): (r: MenuPageState)
    ensures TenantApi.GetWeddingByUserId(s, userId, weddingFault).None? ==> r == st
    ensures (TenantApi.GetWeddingByUserId(s, userId, weddingFault).Some?
             && TenantApi.GetMenuConfigByWeddingId(s, TenantApi.GetWeddingByUserId(s, userId, weddingFault).value.id, configFault).Some?)
            ==> Ids(r.items) == TemplateIds
  {
    match TenantApi.GetWeddingByUserId(s, userId, weddingFault)
    case None => st
    case Some(w) =>
      match TenantApi.GetMenuConfigByWeddingId(s, w.id, configFault)
      case None => st.(coupleName := w.coupleName)
      case Some(c) => MenuPageState(Some(c), LoadItems(c), w.coupleName)
  }

  /** A stored `customOrder` never reaches the editor: after loading, the items
      are in template order whatever order was saved. */
  lemma LoadIgnoresSavedOrder(c: MenuConfig, order: string)
    ensures LoadItems(c) == LoadItems(c.(customOrder := order))
    ensures Ids(LoadItems(c)) == TemplateIds
  {
  }

  // ---- toggleVisibility ----

  /** `toggleVisibility(key)`: flips `visible` on every item with that key. */
  function ToggleVisibility(items: seq<MenuItem>, key: string): (r: seq<MenuItem>)
    ensures |r| == |items| && Ids(r) == Ids(items)
    ensures forall i :: 0 <= i < |items| ==>
              r[i].key == items[i].key && r[i].text == items[i].text
              && (r[i].visible <==> (if items[i].key == key then !items[i].visible else items[i].visible))
  {
    seq(|items|, i requires 0 <= i < |items| =>
      if items[i].key == key then items[i].(visible := !items[i].visible) else items[i])
  }

  /** Toggling the same key twice restores the list. */
  lemma ToggleTwice(items: seq<MenuItem>, key: string)
    ensures ToggleVisibility(ToggleVisibility(items, key), key) == items
  {
    var r := ToggleVisibility(ToggleVisibility(items, key), key);
    forall i | 0 <= i < |items| ensures r[i] == items[i] {
    }
  }

  /** A key no item has changes nothing; toggles of two keys commute. */
  lemma ToggleUnknownKey(items: seq<MenuItem>, key: string)
    requires forall i :: 0 <= i < |items| ==> items[i].key != key
    ensures ToggleVisibility(items, key) == items
  {
    var r := ToggleVisibility(items, key);
    forall i | 0 <= i < |items| ensures r[i] == items[i] {
    }
  }

  lemma TogglesCommute(items: seq<MenuItem>, k1: string, k2: string)
    ensures ToggleVisibility(ToggleVisibility(items, k1), k2) == ToggleVisibility(ToggleVisibility(items, k2), k1)
  {
    var a := ToggleVisibility(ToggleVisibility(items, k1), k2);
    var b := ToggleVisibility(ToggleVisibility(items, k2), k1);
    forall i | 0 <= i < |items| ensures a[i] == b[i] {
    }
  }

  // ---- arrangements ----

  /** The ids are a permutation of the five section ids: what the template is,
      and what toggling, dragging (`onReorder` hands back the same items in a new
      order) and loading keep. */
  ghost predicate IsArrangement(items: seq<MenuItem>) {
    multiset(Ids(items)) == multiset(TemplateIds)
  }

  /** Reordering the items reorders their ids. */
  lemma IdsPermutation(a: seq<MenuItem>, b: seq<MenuItem>)
    requires multiset(a) == multiset(b)
    ensures multiset(Ids(a)) == multiset(Ids(b))
  {
    MapPermutation(a, b, ItemId);
  }

  lemma ArrangementsAreKept(items: seq<MenuItem>, key: string, dragged: seq<MenuItem>, c: MenuConfig)
    requires IsArrangement(items) && multiset(dragged) == multiset(items)
    ensures IsArrangement(MenuItemsTemplate)
    ensures IsArrangement(LoadItems(c))
    ensures IsArrangement(ToggleVisibility(items, key))
    ensures IsArrangement(dragged)
  {
    IdsOfTemplate();
    IdsPermutation(dragged, items);
  }

  // ---- handleSave ----

  /** `items.find(i => i.key === key)`: the first item with that key. */
  function FindByKey(items: seq<MenuItem>, key: string): (r: Option<MenuItem>)
    ensures r.Some? ==> r.value in items && r.value.key == key
    ensures r.None? <==> forall i :: 0 <= i < |items| ==> items[i].key != key
    ensures forall i :: 0 <= i < |items| && items[i].key == key && (forall j :: 0 <= j < i ==> items[j].key != key) ==> r == Some(items[i])
    decreases |items|
  {
    if items == [] then None
    else if items[0].key == key then Some(items[0])
    else
      var r := FindByKey(items[1..], key);
      assert forall i :: 1 <= i < |items| ==> items[1..][i - 1] == items[i];
      r
  }

  /** `find(...)?.visible ?? true`. */
  function SavedFlag(items: seq<MenuItem>, key: string): bool {
    match FindByKey(items, key)
    case Some(item) => item.visible
    case None => true
  }

  /** The config object built in `handleSave`: every flag and the order are written. */
  function BuildConfig(items: seq<MenuItem>): (p: MenuConfigPatch)
    ensures p.showHome.Some? && p.showDetails.Some? && p.showRsvp.Some?
    ensures p.showGallery.Some? && p.showWishes.Some? && p.customOrder.Some?
  {
    MenuConfigPatch(Some(SavedFlag(items, "showHome")), Some(SavedFlag(items, "showDetails")),
                    Some(SavedFlag(items, "showRsvp")), Some(SavedFlag(items, "showGallery")),
                    Some(SavedFlag(items, "showWishes")), Some(Join(Ids(items), ",")))
  }

  /** Each saved flag is the visibility of the first item with that key, and an
      absent key saves true. */
  lemma SavedFlagsFollowItems(items: seq<MenuItem>, i: nat)
    requires i < |items| && forall j :: 0 <= j < i ==> items[j].key != items[i].key
    ensures SavedFlag(items, items[i].key) == items[i].visible
    ensures forall key :: (forall j :: 0 <= j < |items| ==> items[j].key != key) ==> SavedFlag(items, key)
  {
  }

  /** The saved `customOrder` splits back at `,` into the current ids; for an
      arrangement it is a permutation of the five section ids. */
  lemma SavedOrderIsPermutation(items: seq<MenuItem>)
    requires IsArrangement(items)
    ensures Split(BuildConfig(items).customOrder.value, ',') == Ids(items)
    ensures multiset(Split(BuildConfig(items).customOrder.value, ',')) == multiset(TemplateIds)
  {
    var ids := Ids(items);
    assert |ids| == |multiset(ids)| == 5;
    forall i | 0 <= i < |ids| ensures ',' !in ids[i] {
      assert ids[i] in multiset(TemplateIds);
    }
    SplitJoin(ids, ',');
  }

  /** `handleSave()`: without a loaded config nothing is sent; otherwise the
      wedding id and the built config are passed to `updateMenuConfig`. */
  function HandleSave(st: MenuPageState): (call: Option<(string, MenuConfigPatch)>)
    ensures st.config.None? <==> call.None?
    ensures call.Some? ==> call.value.0 == st.config.value.weddingId
  {
    match st.config
    case None => None
    case Some(c) => Some((c.weddingId, BuildConfig(st.items)))
  }

  /** Items carrying the template's keys in the template's positions. */
  predicate TemplateKeyed(items: seq<MenuItem>) {
    && |items| == 5
    && items[0].key == "showHome" && items[1].key == "showDetails" && items[2].key == "showRsvp"
    && items[3].key == "showGallery" && items[4].key == "showWishes"
  }

  /** Saving and reloading keeps every section's visibility. The sections come
      back in template order, whatever order was saved (`LoadIgnoresSavedOrder`). */
  lemma SaveThenLoad(items: seq<MenuItem>, c: MenuConfig)
    requires TemplateKeyed(items)
    ensures var back := LoadItems(PatchMenuConfig(c, BuildConfig(items)));
      && back[0].visible == items[0].visible && back[1].visible == items[1].visible
      && back[2].visible == items[2].visible && back[3].visible == items[3].visible
      && back[4].visible == items[4].visible
  {
    var p := BuildConfig(items);
    var saved := PatchMenuConfig(c, p);
    var back := LoadItems(saved);
    SavedFlagAt(items, 0);
    SavedFlagAt(items, 1);
    SavedFlagAt(items, 2);
    SavedFlagAt(items, 3);
    SavedFlagAt(items, 4);
    assert p.showHome == Some(items[0].visible) && p.showDetails == Some(items[1].visible);
    assert p.showRsvp == Some(items[2].visible) && p.showGallery == Some(items[3].visible);
    assert p.showWishes == Some(items[4].visible);
    assert saved.showHome == items[0].visible && saved.showDetails == items[1].visible;
    assert saved.showRsvp == items[2].visible && saved.showGallery == items[3].visible;
    assert saved.showWishes == items[4].visible;
  }

  lemma SavedFlagAt(items: seq<MenuItem>, i: nat)
    requires TemplateKeyed(items) && i < 5
    ensures SavedFlag(items, items[i].key) == items[i].visible
  {
    SavedFlagsFollowItems(items, i);
  }

  // ---- preview ----

  function IsVisible(item: MenuItem): bool { item.visible }

  /** The preview: exactly the visible items, in the current order. */
  function Preview(items: seq<MenuItem>): (r: seq<MenuItem>)
    ensures forall x :: x in r <==> x in items && x.visible
  {
    Filter(items, IsVisible)
  }

  lemma PreviewKeepsOrder(items: seq<MenuItem>)
    ensures IsSubsequence(Preview(items), items)
    ensures (forall i :: 0 <= i < |items| ==> items[i].visible) ==> Preview(items) == items
  {
    FilterIsSubsequence(items, IsVisible);
    if forall i :: 0 <= i < |items| ==> items[i].visible {
      FilterAll(items, IsVisible);
    }
  }
}
