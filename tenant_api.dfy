/** The multi-tenant data layer (src/lib/api/multi-tenant.ts). Writes are
    methods on the `Database`; reads are functions of its state. Every read
    takes a `fault` flag: `true` is the backend answering with an error, which
    each function turns into its "empty" answer (`null` or `[]`). Generated
    UUIDs, the bcrypt hash and the current time are parameters. */
module TenantApi {

  import opened Basics
  import opened Seqs
  import opened Schema

  // ---- defaults written by the creation functions ----

  const DefaultTheme := "rose"
  const DefaultPrimaryColor := "#e11d48"
  const DefaultSecondaryColor := "#ec4899"
  const DefaultFontFamily := "serif"
  const DefaultCustomOrder := "home,details,rsvp,gallery,wishes"

  // ---- menu configs ----

  datatype CreateMenuConfigInput = CreateMenuConfigInput(
    weddingId: string, showHome: Option<bool>, showDetails: Option<bool>, showRsvp: Option<bool>,
    showGallery: Option<bool>, showWishes: Option<bool>, customOrder: Option<string>)

  /** `createMenuConfig({ weddingId })`: nothing but the wedding. */
  function DefaultMenuConfigInput(weddingId: string): CreateMenuConfigInput {
    CreateMenuConfigInput(weddingId, None, None, None, None, None, None)
  }

  /** The row `createMenuConfig` inserts: a `show*` flag is true unless the caller
      passed an explicit `false` (`??`), while an absent or empty `customOrder`
      falls back to the default order (`||`). */
  function MenuConfigRow(data: CreateMenuConfigInput, id: string): (m: MenuConfig)
    ensures m.id == id && m.weddingId == data.weddingId
    ensures m.showHome <==> data.showHome != Some(false)
    ensures m.showDetails <==> data.showDetails != Some(false)
    ensures m.showRsvp <==> data.showRsvp != Some(false)
    ensures m.showGallery <==> data.showGallery != Some(false)
    ensures m.showWishes <==> data.showWishes != Some(false)
    ensures m.customOrder == if Truthy(data.customOrder) then data.customOrder.value else DefaultCustomOrder
  {
    MenuConfig(id, data.weddingId, data.showHome.GetOr(true), data.showDetails.GetOr(true),
               data.showRsvp.GetOr(true), data.showGallery.GetOr(true), data.showWishes.GetOr(true),
               StrOr(data.customOrder, DefaultCustomOrder))
  }

  /** A default menu config shows all five sections in the default order. */
  lemma DefaultMenuConfigShowsEverything(weddingId: string, id: string)
    ensures var m := MenuConfigRow(DefaultMenuConfigInput(weddingId), id);
      m.showHome && m.showDetails && m.showRsvp && m.showGallery && m.showWishes
      && m.customOrder == DefaultCustomOrder && m.weddingId == weddingId
  {
  }

  /** `createMenuConfig` as written: its statement names neither `id` nor
      `updatedAt`, so the table refuses it and the call always reports failure. */
  method CreateMenuConfig(db: Database, data: CreateMenuConfigInput, fault: bool) returns (success: bool)
    requires db.Valid()
    modifies db
    ensures db.Valid()
    ensures !success
    ensures db.State() == old(db.State())
  {
    success := db.InsertMenuConfig(MenuConfigRow(data, UnsentKey), DataColumnsOnly, fault);
  }

  /** `createMenuConfig` corrected to name a generated key `id` and `updatedAt`:
      it succeeds exactly when the keys and the wedding allow the row. */
  method CreateMenuConfigWithKey(db: Database, data: CreateMenuConfigInput, id: string, fault: bool) returns (success: bool)
    requires db.Valid()
    modifies db
    ensures db.Valid()
    ensures success == (!fault && CanInsertMenuConfig(old(db.State()), MenuConfigRow(data, id)))
    ensures db.State() == if success then old(db.State()).(menuConfigs := old(db.menuConfigs) + [MenuConfigRow(data, id)])
                          else old(db.State())
  {
    success := db.InsertMenuConfig(MenuConfigRow(data, id), EveryColumn, fault);
  }

  function MenuConfigOf(weddingId: string): MenuConfig -> bool {
    (m: MenuConfig) => m.weddingId == weddingId
  }

  /** `getMenuConfigByWeddingId` (`.maybeSingle()`). */
  function GetMenuConfigByWeddingId(s: DbState, weddingId: string, fault: bool): (r: Option<MenuConfig>)
    ensures r.Some? ==> r.value in s.menuConfigs && r.value.weddingId == weddingId
    ensures fault ==> r == None
  {
    if fault then None else SingleRow(Filter(s.menuConfigs, MenuConfigOf(weddingId)))
  }

  /** With the unique index on `weddingId`, the read finds the wedding's config whenever there is one. */
  lemma GetMenuConfigFindsStoredConfig(s: DbState, weddingId: string)
    requires Consistent(s)
    ensures GetMenuConfigByWeddingId(s, weddingId, false).Some?
            <==> exists m :: m in s.menuConfigs && m.weddingId == weddingId
  {
    var f := Filter(s.menuConfigs, MenuConfigOf(weddingId));
    UniqueKeyMatchesAtMostOne(s.menuConfigs, MenuConfigWedding, MenuConfigOf(weddingId), weddingId);
    if exists m :: m in s.menuConfigs && m.weddingId == weddingId {
      var m :| m in s.menuConfigs && m.weddingId == weddingId;
      assert m in f;
    }
  }

  /** `updateMenuConfig(weddingId, updates)`. */
  method UpdateMenuConfig(db: Database, weddingId: string, updates: MenuConfigPatch, fault: bool) returns (success: bool)
    requires db.Valid()
    modifies db
    ensures db.Valid()
    ensures success == !fault
    ensures db.State() == if success then old(db.State()).(menuConfigs := UpdateMenuConfigRows(old(db.menuConfigs), weddingId, updates))
                          else old(db.State())
  {
    success := db.UpdateMenuConfig(weddingId, updates, fault);
  }

  // ---- weddings ----

  datatype CreateWeddingInput = CreateWeddingInput(
    userId: string, slug: string, coupleName: string, weddingDate: string,
    theme: Option<string>, primaryColor: Option<string>, secondaryColor: Option<string>,
    fontFamily: Option<string>)

  /** The row `createWedding` inserts: absent or empty styling inputs take the
      defaults; `isActive` takes the column default, true. */
  function WeddingRow(data: CreateWeddingInput, id: string, now: int): (w: Wedding)
    ensures w.id == id && w.userId == data.userId && w.slug == data.slug && w.isActive
    ensures w.coupleName == data.coupleName && w.weddingDate == data.weddingDate
    ensures w.theme == if Truthy(data.theme) then data.theme.value else DefaultTheme
    ensures w.primaryColor == if Truthy(data.primaryColor) then data.primaryColor.value else DefaultPrimaryColor
    ensures w.secondaryColor == if Truthy(data.secondaryColor) then data.secondaryColor.value else DefaultSecondaryColor
    ensures w.fontFamily == if Truthy(data.fontFamily) then data.fontFamily.value else DefaultFontFamily
  {
    Wedding(id, data.userId, data.slug, data.coupleName, data.weddingDate,
            StrOr(data.theme, DefaultTheme), StrOr(data.primaryColor, DefaultPrimaryColor),
            StrOr(data.secondaryColor, DefaultSecondaryColor), StrOr(data.fontFamily, DefaultFontFamily),
            true, now, now)
  }

  datatype CreateWeddingResult = CreateWeddingResult(success: bool, weddingId: Option<string>)

  /** What `createWedding` does to the tables and returns: the wedding insert,
      then, only after it succeeded, `createMenuConfig`, which stores nothing
      and whose failure is ignored. */
  function CreateWeddingSpec(s: DbState, data: CreateWeddingInput, id: string, now: int, fault: bool): (DbState, CreateWeddingResult)
  {
    var w := WeddingRow(data, id, now);
    if fault || !CanInsertWedding(s, w) then (s, CreateWeddingResult(false, None))
    else (s.(weddings := s.weddings + [w]), CreateWeddingResult(true, Some(id)))
  }

  /** `createWedding(data)`. The answer of the menu-config statement is the same
      whether or not the backend also fails for another reason, so it takes no fault. */
  method CreateWedding(db: Database, data: CreateWeddingInput, id: string, now: int, fault: bool) returns (r: CreateWeddingResult)
    requires db.Valid()
    modifies db
    ensures db.Valid()
    ensures (db.State(), r) == CreateWeddingSpec(old(db.State()), data, id, now, fault)
  {
    var w := WeddingRow(data, id, now);
    var ok := db.InsertWedding(w, fault);
    if !ok {
      return CreateWeddingResult(false, None);
    }
    var _ := CreateMenuConfig(db, DefaultMenuConfigInput(id), false);
    r := CreateWeddingResult(true, Some(id));
  }

  /** A wedding whose slug or owner is taken (or whose owner does not exist) is
      rejected, and then nothing at all is written. */
  lemma CreateWeddingRejectsTakenSlugOrOwner(s: DbState, data: CreateWeddingInput, id: string, now: int)
    requires exists w :: w in s.weddings && (w.slug == data.slug || w.userId == data.userId)
    ensures CreateWeddingSpec(s, data, id, now, false) == (s, CreateWeddingResult(false, None))
  {
    var w :| w in s.weddings && (w.slug == data.slug || w.userId == data.userId);
    var i :| 0 <= i < |s.weddings| && s.weddings[i] == w;
    assert WeddingSlug(s.weddings[i]) == data.slug || WeddingOwner(s.weddings[i]) == data.userId;
  }

  /** `createWedding` writes the wedding row and no other: success exactly when
      the wedding is insertable, and every other table is left as it was. */
  lemma CreateWeddingWritesOnlyTheWedding(s: DbState, data: CreateWeddingInput, id: string, now: int, fault: bool)
    ensures var (t, r) := CreateWeddingSpec(s, data, id, now, fault);
      && (r.success <==> !fault && CanInsertWedding(s, WeddingRow(data, id, now)))
      && (!r.success ==> t == s && r.weddingId == None)
      && (r.success ==> r.weddingId == Some(id) && t.weddings == s.weddings + [WeddingRow(data, id, now)])
      && t.menuConfigs == s.menuConfigs
      && t.users == s.users && t.events == s.events && t.gallery == s.gallery
      && t.guests == s.guests && t.wishes == s.wishes && t.admins == s.admins
  {
  }

  /** A wedding created by `createWedding` has no menu config: the read for it
      finds none, although the code means to create a default one. */
  lemma CreateWeddingLeavesNoMenuConfig(s: DbState, data: CreateWeddingInput, id: string, now: int, fault: bool)
    requires Consistent(s)
    ensures var (t, r) := CreateWeddingSpec(s, data, id, now, fault);
      r.success ==> GetMenuConfigByWeddingId(t, id, false) == None
  {
    var w := WeddingRow(data, id, now);
    if !fault && CanInsertWedding(s, w) {
      assert !WeddingExists(s, id);
      NoRowOfNewWedding(s, id);
    }
  }

  /** `createWedding` with the corrected `createMenuConfig`: after the wedding,
      a default menu config under the key `menuConfigId`, whose failure is
      ignored. */
  function CreateWeddingWithKeySpec(s: DbState, data: CreateWeddingInput, id: string, menuConfigId: string,
                                    now: int, weddingFault: bool, menuFault: bool): (DbState, CreateWeddingResult)
  {
    var (s1, r) := CreateWeddingSpec(s, data, id, now, weddingFault);
    var m := MenuConfigRow(DefaultMenuConfigInput(id), menuConfigId);
    if r.success && !menuFault && CanInsertMenuConfig(s1, m) then (s1.(menuConfigs := s1.menuConfigs + [m]), r)
    else (s1, r)
  }

  method CreateWeddingWithKey(db: Database, data: CreateWeddingInput, id: string, menuConfigId: string,
                              now: int, weddingFault: bool, menuFault: bool) returns (r: CreateWeddingResult)
    requires db.Valid()
    modifies db
    ensures db.Valid()
    ensures (db.State(), r) == CreateWeddingWithKeySpec(old(db.State()), data, id, menuConfigId, now, weddingFault, menuFault)
  {
    var w := WeddingRow(data, id, now);
    var ok := db.InsertWedding(w, weddingFault);
    if !ok {
      return CreateWeddingResult(false, None);
    }
    var _ := CreateMenuConfigWithKey(db, DefaultMenuConfigInput(id), menuConfigId, menuFault);
    r := CreateWeddingResult(true, Some(id));
  }

  /** With the corrected `createMenuConfig`, every wedding `createWedding`
      creates has its default menu config, found by the wedding's id. */
  lemma CreateWeddingWithKeySetsUpMenuConfig(s: DbState, data: CreateWeddingInput, id: string, menuConfigId: string,
                                             now: int, weddingFault: bool)
    requires Consistent(s) && !HasKey(s.menuConfigs, MenuConfigKey, menuConfigId)
    ensures var (t, r) := CreateWeddingWithKeySpec(s, data, id, menuConfigId, now, weddingFault, false);
      r.success ==> GetMenuConfigByWeddingId(t, id, false) == Some(MenuConfigRow(DefaultMenuConfigInput(id), menuConfigId))
  {
    var w := WeddingRow(data, id, now);
    var m := MenuConfigRow(DefaultMenuConfigInput(id), menuConfigId);
    if !weddingFault && CanInsertWedding(s, w) {
      SetupMenuConfigAccepted(s, w, m);
      assert !WeddingExists(s, id);
      NoRowOfNewWedding(s, id);
      FilterAppend(s.menuConfigs, [m], MenuConfigOf(id));
    }
  }

  function ActiveWithSlug(slug: string): Wedding -> bool {
    (w: Wedding) => w.slug == slug && w.isActive
  }

  /** `getWeddingBySlug`: an active wedding with that slug (`.single()`). */
  function GetWeddingBySlug(s: DbState, slug: string, fault: bool): (r: Option<Wedding>)
    ensures r.Some? ==> r.value in s.weddings && r.value.slug == slug && r.value.isActive
    ensures fault ==> r == None
  {
    if fault then None else SingleRow(Filter(s.weddings, ActiveWithSlug(slug)))
  }

  /** With the unique index on `slug`, the read finds a wedding exactly when an active one has the slug. */
  lemma GetWeddingBySlugFindsActiveWedding(s: DbState, slug: string)
    requires Consistent(s)
    ensures GetWeddingBySlug(s, slug, false).Some? <==> exists w :: w in s.weddings && w.slug == slug && w.isActive
  {
    var f := Filter(s.weddings, ActiveWithSlug(slug));
    UniqueKeyMatchesAtMostOne(s.weddings, WeddingSlug, ActiveWithSlug(slug), slug);
    if exists w :: w in s.weddings && w.slug == slug && w.isActive {
      var w :| w in s.weddings && w.slug == slug && w.isActive;
      assert w in f;
    }
  }

  function OwnedWedding(userId: string): Wedding -> bool {
    (w: Wedding) => w.userId == userId
  }

  /** `getWeddingByUserId` (`.single()`, active or not). */
  function GetWeddingByUserId(s: DbState, userId: string, fault: bool): (r: Option<Wedding>)
    ensures r.Some? ==> r.value in s.weddings && r.value.userId == userId
    ensures fault ==> r == None
  {
    if fault then None else SingleRow(Filter(s.weddings, OwnedWedding(userId)))
  }

  lemma GetWeddingByUserIdFindsOwnedWedding(s: DbState, userId: string)
    requires Consistent(s)
    ensures GetWeddingByUserId(s, userId, false).Some? <==> exists w :: w in s.weddings && w.userId == userId
  {
    var f := Filter(s.weddings, OwnedWedding(userId));
    UniqueKeyMatchesAtMostOne(s.weddings, WeddingOwner, OwnedWedding(userId), userId);
    if exists w :: w in s.weddings && w.userId == userId {
      var w :| w in s.weddings && w.userId == userId;
      assert w in f;
    }
  }

  /** `updateWeddingTheme`: rewrites `theme`, `primaryColor` and `secondaryColor`
      of the wedding with that id and nothing else. */
  method UpdateWeddingTheme(db: Database, weddingId: string, theme: string, primaryColor: string,
                            secondaryColor: string, fault: bool) returns (success: bool)
    requires db.Valid()
    modifies db
    ensures db.Valid()
    ensures success == !fault
    ensures db.State() == if success then old(db.State()).(weddings := UpdateWeddingRows(old(db.weddings), weddingId, ThemePatch(theme, primaryColor, secondaryColor)))
                          else old(db.State())
    ensures |db.weddings| == |old(db.weddings)|
    ensures forall i :: 0 <= i < |db.weddings| ==>
      var (w, w0) := (db.weddings[i], old(db.weddings[i]));
      && w.fontFamily == w0.fontFamily && w.slug == w0.slug && w.coupleName == w0.coupleName
      && w.weddingDate == w0.weddingDate && w.isActive == w0.isActive && w.userId == w0.userId
      && (success && w0.id == weddingId ==> w.theme == theme && w.primaryColor == primaryColor && w.secondaryColor == secondaryColor)
      && (!success || w0.id != weddingId ==> w == w0)
  {
    success := db.UpdateWedding(weddingId, ThemePatch(theme, primaryColor, secondaryColor), fault);
  }

  // ---- events ----

  datatype CreateEventInput = CreateEventInput(
    weddingId: string, eventType: string, date: string, time: string, location: string,
    address: string, mapUrl: Option<string>, imageUrl: Option<string>, order: Option<int>)

  /** The row `createEvent` inserts: `order` defaults to 0, `isActive` to true. */
  function EventRow(data: CreateEventInput, id: string): (e: Event)
    ensures e.id == id && e.weddingId == data.weddingId && e.eventType == data.eventType && e.isActive
    ensures e.date == data.date && e.time == data.time && e.location == data.location && e.address == data.address
    ensures e.mapUrl == data.mapUrl && e.imageUrl == data.imageUrl
    ensures e.order == if data.order.Some? then data.order.value else 0
  {
    Event(id, data.weddingId, data.eventType, data.date, data.time, data.location, data.address,
          data.mapUrl, data.imageUrl, true, data.order.GetOr(0))
  }

  /** `createEvent` as written: its statement names neither `id` nor
      `updatedAt`, so the table refuses it and the call always reports failure. */
  method CreateEvent(db: Database, data: CreateEventInput, fault: bool) returns (success: bool)
    requires db.Valid()
    modifies db
    ensures db.Valid()
    ensures !success
    ensures db.State() == old(db.State())
  {
    success := db.InsertEvents([EventRow(data, UnsentKey)], DataColumnsOnly, fault);
  }

  /** `createEvent` corrected to name a generated key `id` and `updatedAt`: it
      succeeds exactly with a fresh key and an existing wedding. */
  method CreateEventWithKey(db: Database, data: CreateEventInput, id: string, fault: bool) returns (success: bool)
    requires db.Valid()
    modifies db
    ensures db.Valid()
    ensures success == (!fault && CanInsertEvents(old(db.State()), [EventRow(data, id)]))
    ensures db.State() == if success then old(db.State()).(events := old(db.events) + [EventRow(data, id)]) else old(db.State())
  {
    success := db.InsertEvents([EventRow(data, id)], EveryColumn, fault);
  }

  /** An event the corrected `createEvent` stores joins its wedding's listing:
      the listed events are the earlier ones plus the new one. */
  lemma CreatedEventIsListed(s: DbState, data: CreateEventInput, id: string)
    ensures var e := EventRow(data, id);
      multiset(GetEventsByWeddingId(s.(events := s.events + [e]), data.weddingId, false))
        == multiset(GetEventsByWeddingId(s, data.weddingId, false)) + multiset{e}
  {
    var e := EventRow(data, id);
    FilterAppend(s.events, [e], ActiveEventOf(data.weddingId));
    FilterAll([e], ActiveEventOf(data.weddingId));
  }

  function EventOrder(e: Event): int { e.order }

  function ActiveEventOf(weddingId: string): Event -> bool {
    (e: Event) => e.weddingId == weddingId && e.isActive
  }

  /** `getEventsByWeddingId`: the wedding's active events in ascending `order`. */
  function GetEventsByWeddingId(s: DbState, weddingId: string, fault: bool): (r: seq<Event>)
    ensures forall e :: e in r ==> e in s.events && e.weddingId == weddingId && e.isActive
    ensures !fault ==> forall e :: e in s.events && e.weddingId == weddingId && e.isActive ==> e in r
    ensures SortedBy(r, EventOrder)
    ensures !fault ==> multiset(r) == multiset(Filter(s.events, ActiveEventOf(weddingId)))
    ensures fault ==> r == []
  {
    if fault then []
    else
      var f := Filter(s.events, ActiveEventOf(weddingId));
      SortByMembers(f, EventOrder);
      SortBy(f, EventOrder)
  }

  /** `updateEvent(eventId, updates)`. */
  method UpdateEvent(db: Database, eventId: string, updates: EventPatch, fault: bool) returns (success: bool)
    requires db.Valid()
    modifies db
    ensures db.Valid()
    ensures success == !fault
    ensures db.State() == if success then old(db.State()).(events := UpdateEventRows(old(db.events), eventId, updates)) else old(db.State())
  {
    success := db.UpdateEvent(eventId, updates, fault);
  }

  /** `deleteEvent(eventId)`: every other event stays, in order. */
  method DeleteEvent(db: Database, eventId: string, fault: bool) returns (success: bool)
    requires db.Valid()
    modifies db
    ensures db.Valid()
    ensures success == !fault
    ensures db.State() == if success then old(db.State()).(events := RemoveEvent(old(db.events), eventId)) else old(db.State())
    ensures forall e :: e in db.events <==> e in old(db.events) && (!success || e.id != eventId)
  {
    success := db.DeleteEvent(eventId, fault);
  }

  // ---- gallery ----

  datatype CreateGalleryInput = CreateGalleryInput(weddingId: string, imageUrl: string,
                                                   caption: Option<string>, order: Option<int>)

  /** The row `createGalleryPhoto` inserts: `order` defaults to 0, `isActive` to true. */
  function PhotoRow(data: CreateGalleryInput, id: string, now: int): (g: GalleryPhoto)
    ensures g.id == id && g.weddingId == data.weddingId && g.imageUrl == data.imageUrl
    ensures g.caption == data.caption && g.isActive && g.createdAt == now
    ensures g.order == if data.order.Some? then data.order.value else 0
  {
    GalleryPhoto(id, data.weddingId, data.imageUrl, data.caption, data.order.GetOr(0), true, now)
  }

  /** `createGalleryPhoto` as written: its statement does not name `id`, so
      the table refuses it and the call always reports failure. */
  method CreateGalleryPhoto(db: Database, data: CreateGalleryInput, now: int, fault: bool) returns (success: bool)
    requires db.Valid()
    modifies db
    ensures db.Valid()
    ensures !success
    ensures db.State() == old(db.State())
  {
    success := db.InsertPhoto(PhotoRow(data, UnsentKey, now), DataColumnsOnly, fault);
  }

  /** `createGalleryPhoto` corrected to name a generated key `id`: it succeeds
      exactly with a fresh key and an existing wedding. */
  method CreateGalleryPhotoWithKey(db: Database, data: CreateGalleryInput, id: string, now: int, fault: bool) returns (success: bool)
    requires db.Valid()
    modifies db
    ensures db.Valid()
    ensures success == (!fault && CanInsertPhoto(old(db.State()), PhotoRow(data, id, now)))
    ensures db.State() == if success then old(db.State()).(gallery := old(db.gallery) + [PhotoRow(data, id, now)]) else old(db.State())
  {
    success := db.InsertPhoto(PhotoRow(data, id, now), EveryColumn, fault);
  }

  /** A photo the corrected `createGalleryPhoto` stores joins its wedding's
      gallery: the listed photos are the earlier ones plus the new one. */
  lemma CreatedPhotoIsListed(s: DbState, data: CreateGalleryInput, id: string, now: int)
    ensures var g := PhotoRow(data, id, now);
      multiset(GetGalleryByWeddingId(s.(gallery := s.gallery + [g]), data.weddingId, false))
        == multiset(GetGalleryByWeddingId(s, data.weddingId, false)) + multiset{g}
  {
    var g := PhotoRow(data, id, now);
    FilterAppend(s.gallery, [g], ActivePhotoOf(data.weddingId));
    FilterAll([g], ActivePhotoOf(data.weddingId));
  }

  function PhotoOrder(g: GalleryPhoto): int { g.order }

  function ActivePhotoOf(weddingId: string): GalleryPhoto -> bool {
    (g: GalleryPhoto) => g.weddingId == weddingId && g.isActive
  }

  /** `getGalleryByWeddingId`: the wedding's active photos in ascending `order`. */
  function GetGalleryByWeddingId(s: DbState, weddingId: string, fault: bool): (r: seq<GalleryPhoto>)
    ensures forall g :: g in r ==> g in s.gallery && g.weddingId == weddingId && g.isActive
    ensures !fault ==> forall g :: g in s.gallery && g.weddingId == weddingId && g.isActive ==> g in r
    ensures SortedBy(r, PhotoOrder)
    ensures !fault ==> multiset(r) == multiset(Filter(s.gallery, ActivePhotoOf(weddingId)))
    ensures fault ==> r == []
  {
    if fault then []
    else
      var f := Filter(s.gallery, ActivePhotoOf(weddingId));
      SortByMembers(f, PhotoOrder);
      SortBy(f, PhotoOrder)
  }

  method DeleteGalleryPhoto(db: Database, photoId: string, fault: bool) returns (success: bool)
    requires db.Valid()
    modifies db
    ensures db.Valid()
    ensures success == !fault
    ensures db.State() == if success then old(db.State()).(gallery := RemovePhoto(old(db.gallery), photoId)) else old(db.State())
    ensures forall g :: g in db.gallery <==> g in old(db.gallery) && (!success || g.id != photoId)
  {
    success := db.DeletePhoto(photoId, fault);
  }

  // ---- guests and wishes ----

  /** The body of an RSVP as the form sends it. */
  datatype RsvpInput = RsvpInput(weddingId: Option<string>, name: string, email: Option<string>,
                                 phone: Option<string>, attendance: string, guestCount: Option<string>,
                                 message: Option<string>)

  /** The guest row `submitRSVP` stores. A guest count is kept only for attendance
      exactly "hadir"; absent or empty wedding id, email, phone and message become
      null; name and attendance are stored as given. */
  function GuestRow(data: RsvpInput, id: string, now: int): (g: Guest)
    ensures g.id == id && g.createdAt == now
    ensures g.name == data.name && g.attendance == data.attendance
    ensures g.guestCount == if data.attendance == "hadir" then data.guestCount else None
    ensures g.weddingId.Some? <==> Truthy(data.weddingId)
    ensures g.email.Some? <==> Truthy(data.email)
    ensures g.phone.Some? <==> Truthy(data.phone)
    ensures g.message.Some? <==> Truthy(data.message)
    ensures g.weddingId.Some? ==> g.weddingId == data.weddingId
    ensures g.email.Some? ==> g.email == data.email
    ensures g.phone.Some? ==> g.phone == data.phone
    ensures g.message.Some? ==> g.message == data.message
  {
    Guest(id, NonEmptyOrNone(data.weddingId), data.name, NonEmptyOrNone(data.email), NonEmptyOrNone(data.phone),
          data.attendance, if data.attendance == "hadir" then data.guestCount else None,
          NonEmptyOrNone(data.message), now)
  }

  /** A stored guest who is not coming never carries a guest count. */
  lemma GuestCountOnlyWhenAttending(data: RsvpInput, id: string, now: int)
    ensures GuestRow(data, id, now).guestCount.Some? ==> data.attendance == "hadir" && data.guestCount.Some?
  {
  }

  /** `submitRSVP(data)` of the multi-tenant layer. */
  method SubmitRSVP(db: Database, data: RsvpInput, id: string, now: int, fault: bool) returns (success: bool)
    requires db.Valid()
    modifies db
    ensures db.Valid()
    ensures success == (!fault && CanInsertGuest(old(db.State()), GuestRow(data, id, now)))
    ensures db.State() == if success then old(db.State()).(guests := old(db.guests) + [GuestRow(data, id, now)]) else old(db.State())
  {
    success := db.InsertGuest(GuestRow(data, id, now), fault);
  }

  function GuestCreatedAt(g: Guest): int { g.createdAt }

  function GuestOf(weddingId: string): Guest -> bool {
    (g: Guest) => g.weddingId == Some(weddingId)
  }

  /** `getGuestsByWeddingId`: the wedding's guests, newest first. */
  function GetGuestsByWeddingId(s: DbState, weddingId: string, fault: bool): (r: seq<Guest>)
    ensures forall g :: g in r ==> g in s.guests && g.weddingId == Some(weddingId)
    ensures !fault ==> forall g :: g in s.guests && g.weddingId == Some(weddingId) ==> g in r
    ensures SortedDescBy(r, GuestCreatedAt)
    ensures !fault ==> multiset(r) == multiset(Filter(s.guests, GuestOf(weddingId)))
    ensures fault ==> r == []
  {
    if fault then []
    else
      var f := Filter(s.guests, GuestOf(weddingId));
      SortByMembers(f, GuestCreatedAt);
      SortByDesc(f, GuestCreatedAt)
  }

  datatype WishInput = WishInput(weddingId: Option<string>, name: string, message: string)

  /** The wish row `submitWish` stores: an absent or empty wedding id becomes null. */
  function WishRow(data: WishInput, id: string, now: int): (w: Wish)
    ensures w.id == id && w.name == data.name && w.message == data.message && w.createdAt == now
    ensures w.weddingId.Some? <==> Truthy(data.weddingId)
    ensures w.weddingId.Some? ==> w.weddingId == data.weddingId
  {
    Wish(id, NonEmptyOrNone(data.weddingId), data.name, data.message, now)
  }

  method SubmitWish(db: Database, data: WishInput, id: string, now: int, fault: bool) returns (success: bool)
    requires db.Valid()
    modifies db
    ensures db.Valid()
    ensures success == (!fault && CanInsertWish(old(db.State()), WishRow(data, id, now)))
    ensures db.State() == if success then old(db.State()).(wishes := old(db.wishes) + [WishRow(data, id, now)]) else old(db.State())
  {
    success := db.InsertWish(WishRow(data, id, now), fault);
  }

  function WishCreatedAt(w: Wish): int { w.createdAt }

  function WishOf(weddingId: string): Wish -> bool {
    (w: Wish) => w.weddingId == Some(weddingId)
  }

  /** `getWishesByWeddingId`: the wedding's wishes, newest first. */
  function GetWishesByWeddingId(s: DbState, weddingId: string, fault: bool): (r: seq<Wish>)
    ensures forall w :: w in r ==> w in s.wishes && w.weddingId == Some(weddingId)
    ensures !fault ==> forall w :: w in s.wishes && w.weddingId == Some(weddingId) ==> w in r
    ensures SortedDescBy(r, WishCreatedAt)
    ensures !fault ==> multiset(r) == multiset(Filter(s.wishes, WishOf(weddingId)))
    ensures fault ==> r == []
  {
    if fault then []
    else
      var f := Filter(s.wishes, WishOf(weddingId));
      SortByMembers(f, WishCreatedAt);
      SortByDesc(f, WishCreatedAt)
  }

  /** `deleteWish(id)` (the same statement as the global layer's). */
  method DeleteWish(db: Database, id: string, fault: bool) returns (success: bool)
    requires db.Valid()
    modifies db
    ensures db.Valid()
    ensures success == !fault
    ensures db.State() == if success then old(db.State()).(wishes := RemoveWish(old(db.wishes), id)) else old(db.State())
    ensures forall w :: w in db.wishes <==> w in old(db.wishes) && (!success || w.id != id)
  {
    success := db.DeleteWish(id, fault);
  }

  // ---- users ----

  datatype CreateUserInput = CreateUserInput(email: string, password: string, name: string,
                                             setupWedding: Option<bool>, weddingSlug: Option<string>,
                                             weddingDate: Option<string>)

  /** The UUIDs `createUser` generates, in order. */
  datatype CreateUserIds = CreateUserIds(user: string, wedding: string, akad: string, resepsi: string)

  /** Which backend statements of `createUser` answer with an error for a
      reason the model does not see. The menu-config statement is refused in
      any case, so it has no flag. */
  datatype CreateUserFaults = CreateUserFaults(user: bool, wedding: bool, events: bool)

  datatype CreateUserResult = CreateUserResult(success: bool, userId: Option<string>, weddingId: Option<string>)

  const CreateUserFailed := CreateUserResult(false, None, None)

  /** `data.setupWedding && data.weddingSlug && data.weddingDate`. */
  predicate WantsWedding(data: CreateUserInput) {
    data.setupWedding == Some(true) && Truthy(data.weddingSlug) && Truthy(data.weddingDate)
  }

  /** The user row: active, storing the hash and never the password itself. */
  function NewUser(data: CreateUserInput, id: string, hashedPassword: string, now: int): (u: User)
    ensures u.id == id && u.email == data.email && u.name == data.name
    ensures u.isActive && u.password == hashedPassword
  {
    User(id, data.email, hashedPassword, data.name, true, now, now)
  }

  /** The wedding `createUser` sets up: named after the user, default styling. */
  function SetupWedding(data: CreateUserInput, id: string, userId: string, now: int): (w: Wedding)
    requires WantsWedding(data)
    ensures w.id == id && w.userId == userId && w.slug == data.weddingSlug.value && w.isActive
    ensures w.coupleName == data.name && w.weddingDate == data.weddingDate.value
    ensures w.theme == DefaultTheme && w.primaryColor == DefaultPrimaryColor
    ensures w.secondaryColor == DefaultSecondaryColor && w.fontFamily == DefaultFontFamily
  {
    Wedding(id, userId, data.weddingSlug.value, data.name, data.weddingDate.value, DefaultTheme,
            DefaultPrimaryColor, DefaultSecondaryColor, DefaultFontFamily, true, now, now)
  }

  /** The two default events of a new wedding, both on `date`. */
  function DefaultEvents(akadId: string, resepsiId: string, weddingId: string, date: string): (es: seq<Event>)
    ensures |es| == 2
    ensures es[0].id == akadId && es[0].eventType == "akad" && es[0].order == 0
    ensures es[1].id == resepsiId && es[1].eventType == "resepsi" && es[1].order == 1
    ensures forall i :: 0 <= i < 2 ==> es[i].weddingId == weddingId && es[i].date == date && es[i].isActive
  {
    [Event(akadId, weddingId, "akad", date, "09:00 - 11:00 WIB", "TBA", "Lokasi akan ditentukan", None, None, true, 0),
     Event(resepsiId, weddingId, "resepsi", date, "14:00 - 17:00 WIB", "TBA", "Lokasi akan ditentukan", None, None, true, 1)]
  }

  /** What `createUser` does to the tables and returns. `eventDate` is the
      `YYYY-MM-DD` part of `new Date(weddingDate).toISOString()`, or `None` when
      that date is invalid and `toISOString` throws: the function then reports
      failure although the user and the wedding were written. The default menu
      config `createMenuConfig` is asked for is never stored. */
  function CreateUserSpec(s: DbState, data: CreateUserInput, ids: CreateUserIds, hashedPassword: string,
                          now: int, eventDate: Option<string>, f: CreateUserFaults): (DbState, CreateUserResult)
  {
    var u := NewUser(data, ids.user, hashedPassword, now);
    if f.user || !CanInsertUser(s, u) then (s, CreateUserFailed)
    else
      var s1 := s.(users := s.users + [u]);
      if !WantsWedding(data) then (s1, CreateUserResult(true, Some(ids.user), None))
      else
        var w := SetupWedding(data, ids.wedding, ids.user, now);
        if f.wedding || !CanInsertWedding(s1, w) then (s1, CreateUserResult(true, Some(ids.user), None))
        else
          var s2 := s1.(weddings := s1.weddings + [w]);
          if eventDate.None? then (s2, CreateUserFailed)
          else
            var es := DefaultEvents(ids.akad, ids.resepsi, ids.wedding, eventDate.value);
            var s3 := if !f.events && CanInsertEvents(s2, es) then s2.(events := s2.events + es) else s2;
            (s3, CreateUserResult(true, Some(ids.user), Some(ids.wedding)))
  }

  /** `createUser(data)`: user, then wedding, then menu config, then the two events. */
  method CreateUser(db: Database, data: CreateUserInput, ids: CreateUserIds, hashedPassword: string,
                    now: int, eventDate: Option<string>, f: CreateUserFaults) returns (r: CreateUserResult)
    requires db.Valid()
    modifies db
    ensures db.Valid()
    ensures (db.State(), r) == CreateUserSpec(old(db.State()), data, ids, hashedPassword, now, eventDate, f)
  {
    var u := NewUser(data, ids.user, hashedPassword, now);
    var ok := db.InsertUser(u, f.user);
    if !ok {
      return CreateUserFailed;
    }
    if !WantsWedding(data) {
      return CreateUserResult(true, Some(ids.user), None);
    }
    var w := SetupWedding(data, ids.wedding, ids.user, now);
    ok := db.InsertWedding(w, f.wedding);
    if !ok {
      return CreateUserResult(true, Some(ids.user), None);
    }
    var _ := CreateMenuConfig(db, DefaultMenuConfigInput(ids.wedding), false);
    if eventDate.None? {
      return CreateUserFailed;
    }
    var _ := db.InsertEvents(DefaultEvents(ids.akad, ids.resepsi, ids.wedding, eventDate.value), EveryColumn, f.events);
    r := CreateUserResult(true, Some(ids.user), Some(ids.wedding));
  }

  /** `createUser` writes exactly one user row, active and with the hashed
      password, or (when that insert fails) nothing at all; a taken email is one
      such failure. */
  lemma CreateUserWritesOneUser(s: DbState, data: CreateUserInput, ids: CreateUserIds, hashedPassword: string,
                                now: int, eventDate: Option<string>, f: CreateUserFaults)
    ensures var (t, r) := CreateUserSpec(s, data, ids, hashedPassword, now, eventDate, f);
      var u := NewUser(data, ids.user, hashedPassword, now);
      && (if !f.user && CanInsertUser(s, u) then t.users == s.users + [u] else t == s && !r.success)
      && ((exists v :: v in s.users && v.email == data.email) ==> t == s && r == CreateUserFailed)
  {
    var u := NewUser(data, ids.user, hashedPassword, now);
    if exists v :: v in s.users && v.email == data.email {
      var v :| v in s.users && v.email == data.email;
      var i :| 0 <= i < |s.users| && s.users[i] == v;
      assert UserEmail(s.users[i]) == u.email;
    }
  }

  /** Without `setupWedding` (or without slug or date), no wedding, menu config or event is written. */
  lemma CreateUserWithoutSetupWritesNoWedding(s: DbState, data: CreateUserInput, ids: CreateUserIds, hashedPassword: string,
                                              now: int, eventDate: Option<string>, f: CreateUserFaults)
    requires !WantsWedding(data)
    ensures var (t, r) := CreateUserSpec(s, data, ids, hashedPassword, now, eventDate, f);
      t.weddings == s.weddings && t.menuConfigs == s.menuConfigs && t.events == s.events
      && r.weddingId == None && (r.success <==> r.userId.Some?)
  {
  }

  /** A rejected wedding insert still reports success, with no wedding id. */
  lemma CreateUserSurvivesWeddingFailure(s: DbState, data: CreateUserInput, ids: CreateUserIds, hashedPassword: string,
                                         now: int, eventDate: Option<string>, f: CreateUserFaults)
    requires WantsWedding(data) && !f.user && CanInsertUser(s, NewUser(data, ids.user, hashedPassword, now))
    requires f.wedding || exists w :: w in s.weddings && w.slug == data.weddingSlug.value
    ensures var (t, r) := CreateUserSpec(s, data, ids, hashedPassword, now, eventDate, f);
      r == CreateUserResult(true, Some(ids.user), None)
      && t == s.(users := s.users + [NewUser(data, ids.user, hashedPassword, now)])
  {
    if !f.wedding {
      var s1 := s.(users := s.users + [NewUser(data, ids.user, hashedPassword, now)]);
      var w :| w in s.weddings && w.slug == data.weddingSlug.value;
      var i :| 0 <= i < |s.weddings| && s.weddings[i] == w;
      assert WeddingSlug(s1.weddings[i]) == data.weddingSlug.value;
    }
  }

  /** Fresh UUIDs: the generated keys collide with nothing stored and with each other. */
  predicate FreshIds(s: DbState, ids: CreateUserIds) {
    && !HasKey(s.weddings, WeddingKey, ids.wedding)
    && !HasKey(s.events, EventKey, ids.akad) && !HasKey(s.events, EventKey, ids.resepsi)
    && ids.akad != ids.resepsi
  }

  lemma NoRowOfNewWedding(s: DbState, weddingId: string)
    requires Consistent(s) && !WeddingExists(s, weddingId)
    ensures !HasKey(s.menuConfigs, MenuConfigWedding, weddingId)
    ensures Filter(s.menuConfigs, MenuConfigOf(weddingId)) == []
    ensures Filter(s.events, ActiveEventOf(weddingId)) == []
  {
    forall e | e in s.events ensures !ActiveEventOf(weddingId)(e) {
      assert WeddingExists(s, e.weddingId);
    }
    FilterNone(s.events, ActiveEventOf(weddingId));
    forall c | c in s.menuConfigs ensures !MenuConfigOf(weddingId)(c) {
      assert WeddingExists(s, c.weddingId);
    }
    FilterNone(s.menuConfigs, MenuConfigOf(weddingId));
    forall i | 0 <= i < |s.menuConfigs| ensures MenuConfigWedding(s.menuConfigs[i]) != weddingId {
      assert s.menuConfigs[i] in s.menuConfigs;
    }
  }

  lemma NewUserOwnsNoWedding(s: DbState, u: User)
    requires Consistent(s) && CanInsertUser(s, u)
    ensures !HasKey(s.weddings, WeddingOwner, u.id)
  {
    forall i | 0 <= i < |s.weddings| ensures WeddingOwner(s.weddings[i]) != u.id {
      assert s.weddings[i] in s.weddings;
    }
  }

  /** The tables after a set-up in which every statement that can go through did. */
  function SetUpTenant(s: DbState, u: User, w: Wedding, es: seq<Event>): DbState {
    s.(users := s.users + [u], weddings := s.weddings + [w], events := s.events + es)
  }

  /** Once the user, wedding and event statements are accepted, `createUser`
      writes those three and, as the menu config is refused, nothing else. */
  lemma CreateUserSetUpGoesThrough(s: DbState, data: CreateUserInput, ids: CreateUserIds, hashedPassword: string,
                                   now: int, eventDate: Option<string>)
    requires WantsWedding(data) && eventDate.Some?
    requires var u := NewUser(data, ids.user, hashedPassword, now);
      var w := SetupWedding(data, ids.wedding, ids.user, now);
      var s1 := s.(users := s.users + [u]);
      var s2 := s1.(weddings := s1.weddings + [w]);
      && CanInsertUser(s, u) && CanInsertWedding(s1, w)
      && CanInsertEvents(s2, DefaultEvents(ids.akad, ids.resepsi, ids.wedding, eventDate.value))
    ensures CreateUserSpec(s, data, ids, hashedPassword, now, eventDate, CreateUserFaults(false, false, false))
      == (SetUpTenant(s, NewUser(data, ids.user, hashedPassword, now), SetupWedding(data, ids.wedding, ids.user, now),
                      DefaultEvents(ids.akad, ids.resepsi, ids.wedding, eventDate.value)),
          CreateUserResult(true, Some(ids.user), Some(ids.wedding)))
  {
  }

  /** The new user owns no wedding yet, so its wedding is accepted when slug and id are unused. */
  lemma SetupWeddingAccepted(s: DbState, u: User, w: Wedding)
    requires Consistent(s) && CanInsertUser(s, u) && w.userId == u.id
    requires !HasKey(s.weddings, WeddingKey, w.id) && !HasKey(s.weddings, WeddingSlug, w.slug)
    ensures CanInsertWedding(s.(users := s.users + [u]), w)
  {
    NewUserOwnsNoWedding(s, u);
    HasKeyAppend(s.users, u, UserId, u.id);
  }

  /** The new wedding has no menu config yet, so its default config is accepted. */
  lemma SetupMenuConfigAccepted(s: DbState, w: Wedding, m: MenuConfig)
    requires Consistent(s) && CanInsertWedding(s, w) && m.weddingId == w.id
    requires !HasKey(s.menuConfigs, MenuConfigKey, m.id)
    ensures CanInsertMenuConfig(s.(weddings := s.weddings + [w]), m)
  {
    NoRowOfNewWedding(s, w.id);
    HasKeyAppend(s.weddings, w, WeddingKey, w.id);
  }

  lemma SetupEventsAccepted(s: DbState, w: Wedding, es: seq<Event>)
    requires CanInsertWedding(s, w) && |es| == 2 && es[0].id != es[1].id
    requires forall i :: 0 <= i < 2 ==> es[i].weddingId == w.id && !HasKey(s.events, EventKey, es[i].id)
    ensures CanInsertEvents(s.(weddings := s.weddings + [w]), es)
  {
    HasKeyAppend(s.weddings, w, WeddingKey, w.id);
  }

  /** When setup is requested and no statement meets a fault, the new tenant's
      page resolves by slug and its events are akad (order 0) then resepsi
      (order 1), both on the wedding date; but no menu config is found for it. */
  lemma CreateUserSetsUpTenant(s: DbState, data: CreateUserInput, ids: CreateUserIds, hashedPassword: string,
                               now: int, eventDate: Option<string>)
    requires Consistent(s) && WantsWedding(data) && eventDate.Some?
    requires CanInsertUser(s, NewUser(data, ids.user, hashedPassword, now))
    requires !HasKey(s.weddings, WeddingSlug, data.weddingSlug.value)
    requires FreshIds(s, ids)
    ensures var (t, r) := CreateUserSpec(s, data, ids, hashedPassword, now, eventDate, CreateUserFaults(false, false, false));
      && r == CreateUserResult(true, Some(ids.user), Some(ids.wedding))
      && GetWeddingBySlug(t, data.weddingSlug.value, false) == Some(SetupWedding(data, ids.wedding, ids.user, now))
      && GetMenuConfigByWeddingId(t, ids.wedding, false) == None
      && GetEventsByWeddingId(t, ids.wedding, false) == DefaultEvents(ids.akad, ids.resepsi, ids.wedding, eventDate.value)
  {
    var u := NewUser(data, ids.user, hashedPassword, now);
    var w := SetupWedding(data, ids.wedding, ids.user, now);
    var es := DefaultEvents(ids.akad, ids.resepsi, ids.wedding, eventDate.value);
    var s1 := s.(users := s.users + [u]);
    SetUpAccepted(s, u, w, es);
    CreateUserSetUpGoesThrough(s, data, ids, hashedPassword, now, eventDate);
    NewWeddingResolves(s.weddings, w);
    InsertUserKeepsConsistent(s, u);
    NoRowOfNewWedding(s1, ids.wedding);
    DefaultEventsListed(s.events, ids.akad, ids.resepsi, ids.wedding, eventDate.value);
  }

  /** The wedding and event inserts that follow the user insert of a set-up
      are each accepted. */
  lemma SetUpAccepted(s: DbState, u: User, w: Wedding, es: seq<Event>)
    requires Consistent(s) && CanInsertUser(s, u) && w.userId == u.id
    requires !HasKey(s.weddings, WeddingKey, w.id) && !HasKey(s.weddings, WeddingSlug, w.slug)
    requires |es| == 2 && es[0].id != es[1].id
    requires forall i :: 0 <= i < 2 ==> es[i].weddingId == w.id && !HasKey(s.events, EventKey, es[i].id)
    ensures var s1 := s.(users := s.users + [u]);
      CanInsertWedding(s1, w) && CanInsertEvents(s1.(weddings := s1.weddings + [w]), es)
  {
    SetupWeddingAccepted(s, u, w);
    SetupEventsAccepted(s.(users := s.users + [u]), w, es);
  }

  lemma NewWeddingResolves(ws: seq<Wedding>, w: Wedding)
    requires !HasKey(ws, WeddingSlug, w.slug) && w.isActive
    ensures Filter(ws + [w], ActiveWithSlug(w.slug)) == [w]
  {
    forall v | v in ws ensures !ActiveWithSlug(w.slug)(v) {
      var i :| 0 <= i < |ws| && ws[i] == v;
      assert WeddingSlug(ws[i]) != w.slug;
    }
    FilterNone(ws, ActiveWithSlug(w.slug));
    FilterAppend(ws, [w], ActiveWithSlug(w.slug));
  }

  lemma DefaultEventsListed(evs: seq<Event>, akadId: string, resepsiId: string, weddingId: string, date: string)
    requires Filter(evs, ActiveEventOf(weddingId)) == []
    ensures var es := DefaultEvents(akadId, resepsiId, weddingId, date);
      SortBy(Filter(evs + es, ActiveEventOf(weddingId)), EventOrder) == es
  {
    DefaultEventsAreTheOnlyOnes(evs, akadId, resepsiId, weddingId, date);
    DefaultEventsInOrder(akadId, resepsiId, weddingId, date);
  }

  lemma DefaultEventsInOrder(akadId: string, resepsiId: string, weddingId: string, date: string)
    ensures var es := DefaultEvents(akadId, resepsiId, weddingId, date);
      SortBy(es, EventOrder) == es
  {
    var es := DefaultEvents(akadId, resepsiId, weddingId, date);
    assert SortedBy(es, EventOrder);
    SortByOfSorted(es, EventOrder);
  }

  lemma DefaultEventsAreTheOnlyOnes(evs: seq<Event>, akadId: string, resepsiId: string, weddingId: string, date: string)
    requires Filter(evs, ActiveEventOf(weddingId)) == []
    ensures var es := DefaultEvents(akadId, resepsiId, weddingId, date);
      Filter(evs + es, ActiveEventOf(weddingId)) == es
  {
    var es := DefaultEvents(akadId, resepsiId, weddingId, date);
    FilterAppend(evs, es, ActiveEventOf(weddingId));
    FilterAll(es, ActiveEventOf(weddingId));
  }

  /** `deleteUser(userId)`: the cascade of the schema's referential actions. */
  method DeleteUser(db: Database, userId: string, fault: bool) returns (success: bool)
    requires db.Valid()
    modifies db
    ensures db.Valid()
    ensures success == !fault
    ensures db.State() == if success then CascadeDeleteUser(old(db.State()), userId) else old(db.State())
  {
    success := db.DeleteUser(userId, fault);
  }

  /** After deleting a user nothing of the tenant remains (its user row, its
      wedding and that wedding's menu config, events and photos), every row of
      other tenants is kept, and guests and wishes are untouched. */
  lemma DeleteUserRemovesTenant(s: DbState, userId: string)
    requires Consistent(s)
    ensures var t := CascadeDeleteUser(s, userId);
      && (forall u :: u in t.users <==> u in s.users && u.id != userId)
      && (forall w :: w in t.weddings <==> w in s.weddings && w.userId != userId)
      && (forall w, m: MenuConfig :: w in s.weddings && w.userId == userId && m.weddingId == w.id ==> m !in t.menuConfigs)
      && (forall w, e: Event :: w in s.weddings && w.userId == userId && e.weddingId == w.id ==> e !in t.events)
      && (forall w, g: GalleryPhoto :: w in s.weddings && w.userId == userId && g.weddingId == w.id ==> g !in t.gallery)
      && (forall e :: e in s.events && !OwnedBy(s.weddings, e.weddingId, userId) ==> e in t.events)
      && t.guests == s.guests && t.wishes == s.wishes
      && (forall a :: a in t.admins ==> a.userId != Some(userId))
  {
    var t := CascadeDeleteUser(s, userId);
    forall w, m: MenuConfig | w in s.weddings && w.userId == userId && m.weddingId == w.id ensures m !in t.menuConfigs {
      var i :| 0 <= i < |s.weddings| && s.weddings[i] == w;
      assert OwnedBy(s.weddings, m.weddingId, userId);
    }
    forall w, e: Event | w in s.weddings && w.userId == userId && e.weddingId == w.id ensures e !in t.events {
      var i :| 0 <= i < |s.weddings| && s.weddings[i] == w;
      assert OwnedBy(s.weddings, e.weddingId, userId);
    }
    forall w, g: GalleryPhoto | w in s.weddings && w.userId == userId && g.weddingId == w.id ensures g !in t.gallery {
      var i :| 0 <= i < |s.weddings| && s.weddings[i] == w;
      assert OwnedBy(s.weddings, g.weddingId, userId);
    }
  }

  // ---- homepage redirect ----

  function WeddingCreatedAt(w: Wedding): int { w.createdAt }

  function IsActiveWedding(w: Wedding): bool { w.isActive }

  /** The earliest created active wedding (`.eq("isActive", true).order("createdAt").limit(1)`). */
  function FirstActiveWedding(s: DbState): (r: Option<Wedding>)
    ensures r.Some? ==> r.value in s.weddings && r.value.isActive
                        && forall v :: v in s.weddings && v.isActive ==> r.value.createdAt <= v.createdAt
    ensures r.Some? <==> exists w :: w in s.weddings && w.isActive
  {
    var active := Filter(s.weddings, IsActiveWedding);
    var sorted := SortBy(active, WeddingCreatedAt);
    SortByMembers(active, WeddingCreatedAt);
    if sorted == [] then
      assert forall w :: w in s.weddings && w.isActive ==> w in sorted;
      None
    else
      assert sorted[0] in sorted;
      Some(sorted[0])
  }

  /** `getFirstActiveWedding`: the slug of the earliest created active wedding. */
  function GetFirstActiveWedding(s: DbState, fault: bool): (r: Option<string>)
    ensures r.Some? ==> exists w :: w in s.weddings && w.isActive && w.slug == r.value
                          && forall v :: v in s.weddings && v.isActive ==> w.createdAt <= v.createdAt
    ensures !fault ==> (r.Some? <==> exists w :: w in s.weddings && w.isActive)
    ensures fault ==> r == None
  {
    if fault then None
    else match FirstActiveWedding(s)
      case None => None
      case Some(w) => Some(w.slug)
  }

  // ---- admins ----

  datatype CreateAdminInput = CreateAdminInput(username: string, password: string,
                                               role: Option<string>, userId: Option<string>)

  /** The admin row `createAdmin` inserts: the password as given (not hashed),
      role "admin" when absent or empty. */
  function AdminRow(data: CreateAdminInput, id: string): (a: Admin)
    ensures a.id == id && a.username == data.username && a.password == data.password
    ensures a.role == if Truthy(data.role) then data.role.value else "admin"
    ensures a.userId == data.userId
  {
    Admin(id, data.username, data.password, StrOr(data.role, "admin"), data.userId)
  }

  method CreateAdmin(db: Database, data: CreateAdminInput, id: string, fault: bool) returns (success: bool, admin: Option<Admin>)
    requires db.Valid()
    modifies db
    ensures db.Valid()
    ensures success == (!fault && CanInsertAdmin(old(db.State()), AdminRow(data, id)))
    ensures (exists a :: a in old(db.admins) && a.username == data.username) ==> !success
    ensures admin == if success then Some(AdminRow(data, id)) else None
    ensures db.State() == if success then old(db.State()).(admins := old(db.admins) + [AdminRow(data, id)]) else old(db.State())
  {
    success := db.InsertAdmin(AdminRow(data, id), fault);
    admin := if success then Some(AdminRow(data, id)) else None;
  }
}
