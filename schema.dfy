/** The relational store behind the application: one table per entity, and the
    unique indexes and foreign keys declared for them (prisma/push-schema.ts).
    The `Database` class plays the database engine: every insert, update and
    delete checks the constraints (for an insert also that the NOT NULL
    columns without a DEFAULT are named) and either applies the whole statement or
    reports an error and changes nothing. `fault` parameters stand for every
    other reason the backend may answer with an error (network, permissions). */
module Schema {

  import opened Basics
  import opened Seqs

  // ---- rows ----

  /** Timestamps are milliseconds since the epoch. */
  datatype User = User(id: string, email: string, password: string, name: string,
                       isActive: bool, createdAt: int, updatedAt: int)

  datatype Wedding = Wedding(id: string, userId: string, slug: string, coupleName: string,
                             weddingDate: string, theme: string, primaryColor: string,
                             secondaryColor: string, fontFamily: string, isActive: bool,
                             createdAt: int, updatedAt: int)

  datatype MenuConfig = MenuConfig(id: string, weddingId: string, showHome: bool, showDetails: bool,
                                   showRsvp: bool, showGallery: bool, showWishes: bool,
                                   customOrder: string)

  /** `eventType` is the `type` column ("akad", "resepsi", ...). */
  datatype Event = Event(id: string, weddingId: string, eventType: string, date: string,
                         time: string, location: string, address: string,
                         mapUrl: Option<string>, imageUrl: Option<string>,
                         isActive: bool, order: int)

  datatype GalleryPhoto = GalleryPhoto(id: string, weddingId: string, imageUrl: string,
                                       caption: Option<string>, order: int, isActive: bool,
                                       createdAt: int)

  /** `weddingId` is nullable and has no foreign key: guests of the global (legacy) mode have none. */
  datatype Guest = Guest(id: string, weddingId: Option<string>, name: string, email: Option<string>,
                         phone: Option<string>, attendance: string, guestCount: Option<string>,
                         message: Option<string>, createdAt: int)

  datatype Wish = Wish(id: string, weddingId: Option<string>, name: string, message: string,
                       createdAt: int)

  datatype Admin = Admin(id: string, username: string, password: string, role: string,
                         userId: Option<string>)

  /** The contents of all tables at one moment. */
  datatype DbState = DbState(users: seq<User>, weddings: seq<Wedding>, menuConfigs: seq<MenuConfig>,
                             events: seq<Event>, gallery: seq<GalleryPhoto>, guests: seq<Guest>,
                             wishes: seq<Wish>, admins: seq<Admin>)

  const EmptyDb := DbState([], [], [], [], [], [], [], [])

  // ---- key columns ----

  function UserId(u: User): string { u.id }
  function UserEmail(u: User): string { u.email }
  function WeddingKey(w: Wedding): string { w.id }
  function WeddingSlug(w: Wedding): string { w.slug }
  function WeddingOwner(w: Wedding): string { w.userId }
  function MenuConfigKey(m: MenuConfig): string { m.id }
  function MenuConfigWedding(m: MenuConfig): string { m.weddingId }
  function EventKey(e: Event): string { e.id }
  function PhotoKey(g: GalleryPhoto): string { g.id }
  function GuestKey(g: Guest): string { g.id }
  function WishKey(w: Wish): string { w.id }
  function AdminKey(a: Admin): string { a.id }
  function AdminUsername(a: Admin): string { a.username }

  /** Some user has this id (target of the foreign keys to "User"). */
  predicate UserExists(s: DbState, id: string) {
    HasKey(s.users, UserId, id)
  }

  /** Some wedding has this id (target of the foreign keys to "Wedding"). */
  predicate WeddingExists(s: DbState, id: string) {
    HasKey(s.weddings, WeddingKey, id)
  }

  /** No two admins link the same user ("Admin_userId_key"; NULLs never collide). */
  ghost predicate AdminLinksUnique(admins: seq<Admin>) {
    forall i, j :: 0 <= i < j < |admins| && admins[i].userId.Some? ==> admins[i].userId != admins[j].userId
  }

  predicate AdminLinkTaken(admins: seq<Admin>, userId: string) {
    exists i :: 0 <= i < |admins| && admins[i].userId == Some(userId)
  }

  /** Every constraint the schema declares: primary keys, the unique indexes on
      User.email, Wedding.userId, Wedding.slug, MenuConfig.weddingId and
      Admin.userId, the unique Admin.username the seed script upserts on, and
      the foreign keys of Wedding, MenuConfig, Event, Gallery and Admin. Guest
      and Wish carry no foreign key. */
  ghost predicate Consistent(s: DbState) {
    && UniqueBy(s.users, UserId) && UniqueBy(s.users, UserEmail)
    && UniqueBy(s.weddings, WeddingKey) && UniqueBy(s.weddings, WeddingSlug)
    && UniqueBy(s.weddings, WeddingOwner)
    && (forall w :: w in s.weddings ==> UserExists(s, w.userId))
    && UniqueBy(s.menuConfigs, MenuConfigKey) && UniqueBy(s.menuConfigs, MenuConfigWedding)
    && (forall m :: m in s.menuConfigs ==> WeddingExists(s, m.weddingId))
    && UniqueBy(s.events, EventKey)
    && (forall e :: e in s.events ==> WeddingExists(s, e.weddingId))
    && UniqueBy(s.gallery, PhotoKey)
    && (forall g :: g in s.gallery ==> WeddingExists(s, g.weddingId))
    && UniqueBy(s.guests, GuestKey)
    && UniqueBy(s.wishes, WishKey)
    && UniqueBy(s.admins, AdminKey) && UniqueBy(s.admins, AdminUsername)
    && AdminLinksUnique(s.admins)
    && (forall a :: a in s.admins && a.userId.Some? ==> UserExists(s, a.userId.value))
  }

  /** PostgREST's `.single()` (and `.maybeSingle()`): a row only when exactly one
      row matches; none, or several, is reported as an error. */
  function SingleRow<T>(rows: seq<T>): (r: Option<T>)
    ensures r.Some? <==> |rows| == 1
    ensures r.Some? ==> r.value == rows[0]
  {
    if |rows| == 1 then Some(rows[0]) else None
  }

  // ---- when an INSERT is accepted ----

  predicate CanInsertUser(s: DbState, u: User) {
    !HasKey(s.users, UserId, u.id) && !HasKey(s.users, UserEmail, u.email)
  }

  predicate CanInsertWedding(s: DbState, w: Wedding) {
    && !HasKey(s.weddings, WeddingKey, w.id)
    && !HasKey(s.weddings, WeddingSlug, w.slug)
    && !HasKey(s.weddings, WeddingOwner, w.userId)
    && UserExists(s, w.userId)
  }

  predicate CanInsertMenuConfig(s: DbState, m: MenuConfig) {
    && !HasKey(s.menuConfigs, MenuConfigKey, m.id)
    && !HasKey(s.menuConfigs, MenuConfigWedding, m.weddingId)
    && WeddingExists(s, m.weddingId)
  }

  /** A multi-row insert is one statement: every row must be acceptable together. */
  predicate CanInsertEvents(s: DbState, es: seq<Event>) {
    && (forall i, j :: 0 <= i < j < |es| ==> es[i].id != es[j].id)
    && (forall i :: 0 <= i < |es| ==> !HasKey(s.events, EventKey, es[i].id) && WeddingExists(s, es[i].weddingId))
  }

  predicate CanInsertPhoto(s: DbState, g: GalleryPhoto) {
    !HasKey(s.gallery, PhotoKey, g.id) && WeddingExists(s, g.weddingId)
  }

  // ---- which columns an INSERT names ----

  /** Whether an INSERT names the `id` and `updatedAt` columns. Both are NOT NULL
      without a DEFAULT wherever the table has them (Gallery has no `updatedAt`),
      so a statement that leaves one out is refused whatever its values. The
      User and Wedding statements always name both; the Guest, Wish and Admin
      tables are created outside the schema script, so their inserts are taken
      to be checked by keys alone. */
  datatype SentColumns = SentColumns(id: bool, updatedAt: bool)

  const EveryColumn := SentColumns(true, true)

  /** Only the data columns: the key and the timestamp are left to the database. */
  const DataColumnsOnly := SentColumns(false, false)

  /** The key a row value carries when its statement does not name `id`; such a
      statement is refused, so this value is never stored. */
  const UnsentKey := ""

  /** NOT NULL for MenuConfig and Event rows. */
  predicate NamesKeyAndTimestamp(c: SentColumns) { c.id && c.updatedAt }

  /** NOT NULL for Gallery rows. */
  predicate NamesKey(c: SentColumns) { c.id }

  predicate CanInsertGuest(s: DbState, g: Guest) {
    !HasKey(s.guests, GuestKey, g.id)
  }

  predicate CanInsertWish(s: DbState, w: Wish) {
    !HasKey(s.wishes, WishKey, w.id)
  }

  predicate CanInsertAdmin(s: DbState, a: Admin) {
    && !HasKey(s.admins, AdminKey, a.id)
    && !HasKey(s.admins, AdminUsername, a.username)
    && (a.userId.Some? ==> !AdminLinkTaken(s.admins, a.userId.value) && UserExists(s, a.userId.value))
  }

  // ---- UPDATE statements (never on key columns) ----

  /** The columns `updateWeddingTheme` and `updateEventData` write. */
  datatype WeddingPatch =
    | ThemePatch(theme: string, primaryColor: string, secondaryColor: string)
    | DetailsPatch(coupleName: Option<string>, weddingDate: Option<string>)

  function PatchWedding(w: Wedding, p: WeddingPatch): (r: Wedding)
    ensures r.id == w.id && r.userId == w.userId && r.slug == w.slug
  {
    match p
    case ThemePatch(t, c1, c2) => w.(theme := t, primaryColor := c1, secondaryColor := c2)
    case DetailsPatch(n, d) => w.(coupleName := n.GetOr(w.coupleName), weddingDate := d.GetOr(w.weddingDate))
  }

  /** `Partial<MenuConfig>`: an absent field is not written. */
  datatype MenuConfigPatch = MenuConfigPatch(showHome: Option<bool>, showDetails: Option<bool>,
                                             showRsvp: Option<bool>, showGallery: Option<bool>,
                                             showWishes: Option<bool>, customOrder: Option<string>)

  function PatchMenuConfig(m: MenuConfig, p: MenuConfigPatch): MenuConfig {
    m.(showHome := p.showHome.GetOr(m.showHome), showDetails := p.showDetails.GetOr(m.showDetails),
       showRsvp := p.showRsvp.GetOr(m.showRsvp), showGallery := p.showGallery.GetOr(m.showGallery),
       showWishes := p.showWishes.GetOr(m.showWishes), customOrder := p.customOrder.GetOr(m.customOrder))
  }

  /** `Partial<Event>` without the key columns `id` and `weddingId`. */
  datatype EventPatch = EventPatch(eventType: Option<string>, date: Option<string>, time: Option<string>,
                                   location: Option<string>, address: Option<string>,
                                   mapUrl: Option<Option<string>>, imageUrl: Option<Option<string>>,
                                   isActive: Option<bool>, order: Option<int>)

  function PatchEvent(e: Event, p: EventPatch): Event {
    e.(eventType := p.eventType.GetOr(e.eventType), date := p.date.GetOr(e.date),
       time := p.time.GetOr(e.time), location := p.location.GetOr(e.location),
       address := p.address.GetOr(e.address), mapUrl := p.mapUrl.GetOr(e.mapUrl),
       imageUrl := p.imageUrl.GetOr(e.imageUrl), isActive := p.isActive.GetOr(e.isActive),
       order := p.order.GetOr(e.order))
  }

  function UpdateWeddingRows(ws: seq<Wedding>, id: string, p: WeddingPatch): (r: seq<Wedding>)
    ensures |r| == |ws|
    ensures forall i :: 0 <= i < |ws| ==> r[i] == if ws[i].id == id then PatchWedding(ws[i], p) else ws[i]
  {
    seq(|ws|, i requires 0 <= i < |ws| => if ws[i].id == id then PatchWedding(ws[i], p) else ws[i])
  }

  function UpdateMenuConfigRows(ms: seq<MenuConfig>, weddingId: string, p: MenuConfigPatch): (r: seq<MenuConfig>)
    ensures |r| == |ms|
    ensures forall i :: 0 <= i < |ms| ==> r[i] == if ms[i].weddingId == weddingId then PatchMenuConfig(ms[i], p) else ms[i]
  {
    seq(|ms|, i requires 0 <= i < |ms| => if ms[i].weddingId == weddingId then PatchMenuConfig(ms[i], p) else ms[i])
  }

  function UpdateEventRows(es: seq<Event>, id: string, p: EventPatch): (r: seq<Event>)
    ensures |r| == |es|
    ensures forall i :: 0 <= i < |es| ==> r[i] == if es[i].id == id then PatchEvent(es[i], p) else es[i]
  {
    seq(|es|, i requires 0 <= i < |es| => if es[i].id == id then PatchEvent(es[i], p) else es[i])
  }

  // ---- DELETE statements ----

  function RemoveEvent(es: seq<Event>, id: string): seq<Event> {
    Filter(es, (e: Event) => e.id != id)
  }

  function RemovePhoto(gs: seq<GalleryPhoto>, id: string): seq<GalleryPhoto> {
    Filter(gs, (g: GalleryPhoto) => g.id != id)
  }

  function RemoveWish(ws: seq<Wish>, id: string): seq<Wish> {
    Filter(ws, (w: Wish) => w.id != id)
  }

  /** The wedding with this id belongs to user `userId`. */
  predicate OwnedBy(ws: seq<Wedding>, weddingId: string, userId: string) {
    exists i :: 0 <= i < |ws| && ws[i].id == weddingId && ws[i].userId == userId
  }

  function UnlinkAdmin(a: Admin, userId: string): Admin {
    if a.userId == Some(userId) then a.(userId := None) else a
  }

  /** `DELETE FROM "User" WHERE id = userId` with the declared referential actions:
      the user's wedding goes (ON DELETE CASCADE), and with it the wedding's menu
      config, events and photos (ON DELETE CASCADE); an admin linked to the user
      loses the link (ON DELETE SET NULL). Guests and wishes have no foreign key. */
  function CascadeDeleteUser(s: DbState, userId: string): DbState {
    DbState(
      Filter(s.users, (u: User) => u.id != userId),
      Filter(s.weddings, (w: Wedding) => w.userId != userId),
      Filter(s.menuConfigs, (m: MenuConfig) => !OwnedBy(s.weddings, m.weddingId, userId)),
      Filter(s.events, (e: Event) => !OwnedBy(s.weddings, e.weddingId, userId)),
      Filter(s.gallery, (g: GalleryPhoto) => !OwnedBy(s.weddings, g.weddingId, userId)),
      s.guests,
      s.wishes,
      seq(|s.admins|, i requires 0 <= i < |s.admins| => UnlinkAdmin(s.admins[i], userId)))
  }

  // ---- the constraints survive every statement ----

  lemma UniqueByConcat<T, K>(s: seq<T>, es: seq<T>, key: T -> K)
    requires UniqueBy(s, key) && UniqueBy(es, key)
    requires forall i :: 0 <= i < |es| ==> !HasKey(s, key, key(es[i]))
    ensures UniqueBy(s + es, key)
  {
    var t := s + es;
    forall i, j | 0 <= i < j < |t| ensures key(t[i]) != key(t[j]) {
      if j < |s| {
        assert t[i] == s[i] && t[j] == s[j];
      } else if i < |s| {
        assert t[i] == s[i] && t[j] == es[j - |s|];
        assert !HasKey(s, key, key(es[j - |s|]));
      } else {
        assert t[i] == es[i - |s|] && t[j] == es[j - |s|];
      }
    }
  }

  lemma HasKeyConcat<T, K>(s: seq<T>, es: seq<T>, key: T -> K, k: K)
    requires HasKey(s, key, k)
    ensures HasKey(s + es, key, k)
  {
    var i :| 0 <= i < |s| && key(s[i]) == k;
    assert (s + es)[i] == s[i];
  }

  lemma InsertUserKeepsConsistent(s: DbState, u: User)
    requires Consistent(s) && CanInsertUser(s, u)
    ensures Consistent(s.(users := s.users + [u]))
  {
    UniqueByAppend(s.users, u, UserId);
    UniqueByAppend(s.users, u, UserEmail);
    forall id | UserExists(s, id) ensures HasKey(s.users + [u], UserId, id) {
      HasKeyConcat(s.users, [u], UserId, id);
    }
  }

  lemma InsertWeddingKeepsConsistent(s: DbState, w: Wedding)
    requires Consistent(s) && CanInsertWedding(s, w)
    ensures Consistent(s.(weddings := s.weddings + [w]))
  {
    UniqueByAppend(s.weddings, w, WeddingKey);
    UniqueByAppend(s.weddings, w, WeddingSlug);
    UniqueByAppend(s.weddings, w, WeddingOwner);
    forall id | WeddingExists(s, id) ensures HasKey(s.weddings + [w], WeddingKey, id) {
      HasKeyConcat(s.weddings, [w], WeddingKey, id);
    }
  }

  lemma InsertMenuConfigKeepsConsistent(s: DbState, m: MenuConfig)
    requires Consistent(s) && CanInsertMenuConfig(s, m)
    ensures Consistent(s.(menuConfigs := s.menuConfigs + [m]))
  {
    UniqueByAppend(s.menuConfigs, m, MenuConfigKey);
    UniqueByAppend(s.menuConfigs, m, MenuConfigWedding);
  }

  lemma InsertEventsKeepsConsistent(s: DbState, es: seq<Event>)
    requires Consistent(s) && CanInsertEvents(s, es)
    ensures Consistent(s.(events := s.events + es))
  {
    UniqueByConcat(s.events, es, EventKey);
    var s' := s.(events := s.events + es);
    forall e | e in s'.events ensures WeddingExists(s', e.weddingId) {
      if e !in s.events {
        var k :| 0 <= k < |es| && es[k] == e;
      }
    }
  }

  lemma InsertPhotoKeepsConsistent(s: DbState, g: GalleryPhoto)
    requires Consistent(s) && CanInsertPhoto(s, g)
    ensures Consistent(s.(gallery := s.gallery + [g]))
  {
    UniqueByAppend(s.gallery, g, PhotoKey);
  }

  lemma InsertAdminKeepsConsistent(s: DbState, a: Admin)
    requires Consistent(s) && CanInsertAdmin(s, a)
    ensures Consistent(s.(admins := s.admins + [a]))
  {
    UniqueByAppend(s.admins, a, AdminKey);
    UniqueByAppend(s.admins, a, AdminUsername);
    var t := s.admins + [a];
    forall i, j | 0 <= i < j < |t| && t[i].userId.Some? ensures t[i].userId != t[j].userId {
      assert t[i] == s.admins[i];
      if j < |s.admins| {
        assert t[j] == s.admins[j];
      } else if a.userId.Some? {
        assert !(0 <= i < |s.admins| && s.admins[i].userId == Some(a.userId.value));
      }
    }
  }

  lemma ForeignKeysSurviveUpdatedWeddings(s: DbState, ws: seq<Wedding>)
    requires |ws| == |s.weddings| && forall i :: 0 <= i < |ws| ==> ws[i].id == s.weddings[i].id
    ensures forall id :: WeddingExists(s, id) ==> HasKey(ws, WeddingKey, id)
  {
    forall id | WeddingExists(s, id) ensures HasKey(ws, WeddingKey, id) {
      var i :| 0 <= i < |s.weddings| && WeddingKey(s.weddings[i]) == id;
      assert WeddingKey(ws[i]) == id;
    }
  }

  lemma UpdateWeddingKeepsConsistent(s: DbState, id: string, p: WeddingPatch)
    requires Consistent(s)
    ensures Consistent(s.(weddings := UpdateWeddingRows(s.weddings, id, p)))
  {
    var ws := UpdateWeddingRows(s.weddings, id, p);
    UniqueByMap(s.weddings, ws, WeddingKey);
    UniqueByMap(s.weddings, ws, WeddingSlug);
    UniqueByMap(s.weddings, ws, WeddingOwner);
    ForeignKeysSurviveUpdatedWeddings(s, ws);
    forall w | w in ws ensures UserExists(s, w.userId) {
      var i :| 0 <= i < |ws| && ws[i] == w;
      assert s.weddings[i] in s.weddings;
    }
  }

  lemma UpdateMenuConfigKeepsConsistent(s: DbState, weddingId: string, p: MenuConfigPatch)
    requires Consistent(s)
    ensures Consistent(s.(menuConfigs := UpdateMenuConfigRows(s.menuConfigs, weddingId, p)))
  {
    var ms := UpdateMenuConfigRows(s.menuConfigs, weddingId, p);
    UniqueByMap(s.menuConfigs, ms, MenuConfigKey);
    UniqueByMap(s.menuConfigs, ms, MenuConfigWedding);
    forall m | m in ms ensures WeddingExists(s, m.weddingId) {
      var i :| 0 <= i < |ms| && ms[i] == m;
      assert s.menuConfigs[i] in s.menuConfigs;
    }
  }

  lemma UpdateEventKeepsConsistent(s: DbState, id: string, p: EventPatch)
    requires Consistent(s)
    ensures Consistent(s.(events := UpdateEventRows(s.events, id, p)))
  {
    var es := UpdateEventRows(s.events, id, p);
    UniqueByMap(s.events, es, EventKey);
    forall e | e in es ensures WeddingExists(s, e.weddingId) {
      var i :| 0 <= i < |es| && es[i] == e;
      assert s.events[i] in s.events;
    }
  }

  lemma DeleteRowsKeepsConsistent(s: DbState, eventId: string, photoId: string, wishId: string)
    requires Consistent(s)
    ensures Consistent(s.(events := RemoveEvent(s.events, eventId)))
    ensures Consistent(s.(gallery := RemovePhoto(s.gallery, photoId)))
    ensures Consistent(s.(wishes := RemoveWish(s.wishes, wishId)))
  {
    UniqueByFilter(s.events, (e: Event) => e.id != eventId, EventKey);
    UniqueByFilter(s.gallery, (g: GalleryPhoto) => g.id != photoId, PhotoKey);
    UniqueByFilter(s.wishes, (w: Wish) => w.id != wishId, WishKey);
  }

  lemma CascadeKeepsUniqueKeys(s: DbState, userId: string)
    requires Consistent(s)
    ensures var t := CascadeDeleteUser(s, userId);
      && UniqueBy(t.users, UserId) && UniqueBy(t.users, UserEmail)
      && UniqueBy(t.weddings, WeddingKey) && UniqueBy(t.weddings, WeddingSlug)
      && UniqueBy(t.weddings, WeddingOwner)
      && UniqueBy(t.menuConfigs, MenuConfigKey) && UniqueBy(t.menuConfigs, MenuConfigWedding)
      && UniqueBy(t.events, EventKey) && UniqueBy(t.gallery, PhotoKey) && UniqueBy(t.admins, AdminKey)
      && UniqueBy(t.admins, AdminUsername)
  {
    var t := CascadeDeleteUser(s, userId);
    UniqueByFilter(s.users, (u: User) => u.id != userId, UserId);
    UniqueByFilter(s.users, (u: User) => u.id != userId, UserEmail);
    UniqueByFilter(s.weddings, (w: Wedding) => w.userId != userId, WeddingKey);
    UniqueByFilter(s.weddings, (w: Wedding) => w.userId != userId, WeddingSlug);
    UniqueByFilter(s.weddings, (w: Wedding) => w.userId != userId, WeddingOwner);
    UniqueByFilter(s.menuConfigs, (m: MenuConfig) => !OwnedBy(s.weddings, m.weddingId, userId), MenuConfigKey);
    UniqueByFilter(s.menuConfigs, (m: MenuConfig) => !OwnedBy(s.weddings, m.weddingId, userId), MenuConfigWedding);
    UniqueByFilter(s.events, (e: Event) => !OwnedBy(s.weddings, e.weddingId, userId), EventKey);
    UniqueByFilter(s.gallery, (g: GalleryPhoto) => !OwnedBy(s.weddings, g.weddingId, userId), PhotoKey);
    UniqueByMap(s.admins, t.admins, AdminKey);
    UniqueByMap(s.admins, t.admins, AdminUsername);
  }

  /** A user other than the deleted one survives the cascade. */
  lemma CascadeKeepsOtherUsers(s: DbState, userId: string, id: string)
    requires UserExists(s, id) && id != userId
    ensures UserExists(CascadeDeleteUser(s, userId), id)
  {
    var t := CascadeDeleteUser(s, userId);
    var i :| 0 <= i < |s.users| && UserId(s.users[i]) == id;
    assert s.users[i] in t.users;
    HasKeyMember(t.users, UserId, id);
  }

  /** A wedding that the deleted user does not own survives the cascade. */
  lemma CascadeKeepsOtherWeddings(s: DbState, userId: string, id: string)
    requires WeddingExists(s, id) && !OwnedBy(s.weddings, id, userId)
    ensures WeddingExists(CascadeDeleteUser(s, userId), id)
  {
    var t := CascadeDeleteUser(s, userId);
    var i :| 0 <= i < |s.weddings| && WeddingKey(s.weddings[i]) == id;
    assert s.weddings[i] in t.weddings;
    HasKeyMember(t.weddings, WeddingKey, id);
  }

  lemma CascadeKeepsForeignKeys(s: DbState, userId: string)
    requires Consistent(s)
    ensures var t := CascadeDeleteUser(s, userId);
      && (forall w :: w in t.weddings ==> UserExists(t, w.userId))
      && (forall m :: m in t.menuConfigs ==> WeddingExists(t, m.weddingId))
      && (forall e :: e in t.events ==> WeddingExists(t, e.weddingId))
      && (forall g :: g in t.gallery ==> WeddingExists(t, g.weddingId))
  {
    var t := CascadeDeleteUser(s, userId);
    forall w | w in t.weddings ensures UserExists(t, w.userId) {
      CascadeKeepsOtherUsers(s, userId, w.userId);
    }
    forall m | m in t.menuConfigs ensures WeddingExists(t, m.weddingId) {
      CascadeKeepsOtherWeddings(s, userId, m.weddingId);
    }
    forall e | e in t.events ensures WeddingExists(t, e.weddingId) {
      CascadeKeepsOtherWeddings(s, userId, e.weddingId);
    }
    forall g | g in t.gallery ensures WeddingExists(t, g.weddingId) {
      CascadeKeepsOtherWeddings(s, userId, g.weddingId);
    }
  }

  lemma CascadeKeepsAdminLinks(s: DbState, userId: string)
    requires Consistent(s)
    ensures var t := CascadeDeleteUser(s, userId);
      && AdminLinksUnique(t.admins)
      && (forall a :: a in t.admins && a.userId.Some? ==> UserExists(t, a.userId.value))
  {
    var t := CascadeDeleteUser(s, userId);
    forall a | a in t.admins && a.userId.Some? ensures UserExists(t, a.userId.value) {
      var i :| 0 <= i < |t.admins| && t.admins[i] == a;
      assert s.admins[i] in s.admins;
      CascadeKeepsOtherUsers(s, userId, a.userId.value);
    }
    forall i, j | 0 <= i < j < |t.admins| && t.admins[i].userId.Some? ensures t.admins[i].userId != t.admins[j].userId {
      assert t.admins[i].userId == s.admins[i].userId;
    }
  }

  /** Deleting a user never leaves a dangling reference: every remaining wedding
      has its owner, every remaining menu config, event and photo has its
      wedding, and every remaining admin link points to a remaining user. */
  lemma CascadeDeleteUserKeepsConsistent(s: DbState, userId: string)
    requires Consistent(s)
    ensures Consistent(CascadeDeleteUser(s, userId))
  {
    CascadeKeepsUniqueKeys(s, userId);
    CascadeKeepsForeignKeys(s, userId);
    CascadeKeepsAdminLinks(s, userId);
  }

  // ---- the engine ----

  class Database {
    var users: seq<User>
    var weddings: seq<Wedding>
    var menuConfigs: seq<MenuConfig>
    var events: seq<Event>
    var gallery: seq<GalleryPhoto>
    var guests: seq<Guest>
    var wishes: seq<Wish>
    var admins: seq<Admin>

    function State(): DbState
      reads this
    {
      DbState(users, weddings, menuConfigs, events, gallery, guests, wishes, admins)
    }

    ghost predicate Valid()
      reads this
    {
      Consistent(State())
    }

    constructor ()
      ensures Valid() && State() == EmptyDb
    {
      users, weddings, menuConfigs, events := [], [], [], [];
      gallery, guests, wishes, admins := [], [], [], [];
    }

    method InsertUser(u: User, fault: bool) returns (ok: bool)
      requires Valid()
      modifies this
      ensures Valid()
      ensures ok == (!fault && CanInsertUser(old(State()), u))
      ensures State() == if ok then old(State()).(users := old(users) + [u]) else old(State())
    {
      ok := !fault && CanInsertUser(State(), u);
      if ok {
        InsertUserKeepsConsistent(State(), u);
        users := users + [u];
      }
    }

    method InsertWedding(w: Wedding, fault: bool) returns (ok: bool)
      requires Valid()
      modifies this
      ensures Valid()
      ensures ok == (!fault && CanInsertWedding(old(State()), w))
      ensures State() == if ok then old(State()).(weddings := old(weddings) + [w]) else old(State())
    {
      ok := !fault && CanInsertWedding(State(), w);
      if ok {
        InsertWeddingKeepsConsistent(State(), w);
        weddings := weddings + [w];
      }
    }

    method InsertMenuConfig(m: MenuConfig, cols: SentColumns, fault: bool) returns (ok: bool)
      requires Valid()
      modifies this
      ensures Valid()
      ensures ok == (!fault && NamesKeyAndTimestamp(cols) && CanInsertMenuConfig(old(State()), m))
      ensures State() == if ok then old(State()).(menuConfigs := old(menuConfigs) + [m]) else old(State())
    {
      ok := !fault && NamesKeyAndTimestamp(cols) && CanInsertMenuConfig(State(), m);
      if ok {
        InsertMenuConfigKeepsConsistent(State(), m);
        menuConfigs := menuConfigs + [m];
      }
    }

    method InsertEvents(es: seq<Event>, cols: SentColumns, fault: bool) returns (ok: bool)
      requires Valid()
      modifies this
      ensures Valid()
      ensures ok == (!fault && NamesKeyAndTimestamp(cols) && CanInsertEvents(old(State()), es))
      ensures State() == if ok then old(State()).(events := old(events) + es) else old(State())
    {
      ok := !fault && NamesKeyAndTimestamp(cols) && CanInsertEvents(State(), es);
      if ok {
        InsertEventsKeepsConsistent(State(), es);
        events := events + es;
      }
    }

    method InsertPhoto(g: GalleryPhoto, cols: SentColumns, fault: bool) returns (ok: bool)
      requires Valid()
      modifies this
      ensures Valid()
      ensures ok == (!fault && NamesKey(cols) && CanInsertPhoto(old(State()), g))
      ensures State() == if ok then old(State()).(gallery := old(gallery) + [g]) else old(State())
    {
      ok := !fault && NamesKey(cols) && CanInsertPhoto(State(), g);
      if ok {
        InsertPhotoKeepsConsistent(State(), g);
        gallery := gallery + [g];
      }
    }

    method InsertGuest(g: Guest, fault: bool) returns (ok: bool)
      requires Valid()
      modifies this
      ensures Valid()
      ensures ok == (!fault && CanInsertGuest(old(State()), g))
      ensures State() == if ok then old(State()).(guests := old(guests) + [g]) else old(State())
    {
      ok := !fault && CanInsertGuest(State(), g);
      if ok {
        UniqueByAppend(guests, g, GuestKey);
        guests := guests + [g];
      }
    }

    method InsertWish(w: Wish, fault: bool) returns (ok: bool)
      requires Valid()
      modifies this
      ensures Valid()
      ensures ok == (!fault && CanInsertWish(old(State()), w))
      ensures State() == if ok then old(State()).(wishes := old(wishes) + [w]) else old(State())
    {
      ok := !fault && CanInsertWish(State(), w);
      if ok {
        UniqueByAppend(wishes, w, WishKey);
        wishes := wishes + [w];
      }
    }

    method InsertAdmin(a: Admin, fault: bool) returns (ok: bool)
      requires Valid()
      modifies this
      ensures Valid()
      ensures ok == (!fault && CanInsertAdmin(old(State()), a))
      ensures State() == if ok then old(State()).(admins := old(admins) + [a]) else old(State())
    {
      ok := !fault && CanInsertAdmin(State(), a);
      if ok {
        InsertAdminKeepsConsistent(State(), a);
        admins := admins + [a];
      }
    }

    /** `UPDATE "Wedding" SET ... WHERE id = id`; matching no row is not an error. */
    method UpdateWedding(id: string, p: WeddingPatch, fault: bool) returns (ok: bool)
      requires Valid()
      modifies this
      ensures Valid()
      ensures ok == !fault
      ensures State() == if ok then old(State()).(weddings := UpdateWeddingRows(old(weddings), id, p)) else old(State())
    {
      ok := !fault;
      if ok {
        UpdateWeddingKeepsConsistent(State(), id, p);
        weddings := UpdateWeddingRows(weddings, id, p);
      }
    }

    /** `UPDATE "MenuConfig" SET ... WHERE "weddingId" = weddingId`. */
    method UpdateMenuConfig(weddingId: string, p: MenuConfigPatch, fault: bool) returns (ok: bool)
      requires Valid()
      modifies this
      ensures Valid()
      ensures ok == !fault
      ensures State() == if ok then old(State()).(menuConfigs := UpdateMenuConfigRows(old(menuConfigs), weddingId, p)) else old(State())
    {
      ok := !fault;
      if ok {
        UpdateMenuConfigKeepsConsistent(State(), weddingId, p);
        menuConfigs := UpdateMenuConfigRows(menuConfigs, weddingId, p);
      }
    }

    /** `UPDATE "Event" SET ... WHERE id = id`. */
    method UpdateEvent(id: string, p: EventPatch, fault: bool) returns (ok: bool)
      requires Valid()
      modifies this
      ensures Valid()
      ensures ok == !fault
      ensures State() == if ok then old(State()).(events := UpdateEventRows(old(events), id, p)) else old(State())
    {
      ok := !fault;
      if ok {
        UpdateEventKeepsConsistent(State(), id, p);
        events := UpdateEventRows(events, id, p);
      }
    }

    method DeleteEvent(id: string, fault: bool) returns (ok: bool)
      requires Valid()
      modifies this
      ensures Valid()
      ensures ok == !fault
      ensures State() == if ok then old(State()).(events := RemoveEvent(old(events), id)) else old(State())
    {
      ok := !fault;
      if ok {
        DeleteRowsKeepsConsistent(State(), id, "", "");
        events := RemoveEvent(events, id);
      }
    }

    method DeletePhoto(id: string, fault: bool) returns (ok: bool)
      requires Valid()
      modifies this
      ensures Valid()
      ensures ok == !fault
      ensures State() == if ok then old(State()).(gallery := RemovePhoto(old(gallery), id)) else old(State())
    {
      ok := !fault;
      if ok {
        DeleteRowsKeepsConsistent(State(), "", id, "");
        gallery := RemovePhoto(gallery, id);
      }
    }

    method DeleteWish(id: string, fault: bool) returns (ok: bool)
      requires Valid()
      modifies this
      ensures Valid()
      ensures ok == !fault
      ensures State() == if ok then old(State()).(wishes := RemoveWish(old(wishes), id)) else old(State())
    {
      ok := !fault;
      if ok {
        DeleteRowsKeepsConsistent(State(), "", "", id);
        wishes := RemoveWish(wishes, id);
      }
    }

    /** Replaces the contents of every table at once. */
    method Assign(t: DbState)
      modifies this
      ensures State() == t
    {
      users, weddings, menuConfigs, events := t.users, t.weddings, t.menuConfigs, t.events;
      gallery, guests, wishes, admins := t.gallery, t.guests, t.wishes, t.admins;
    }

    method DeleteUser(id: string, fault: bool) returns (ok: bool)
      requires Valid()
      modifies this
      ensures Valid()
      ensures ok == !fault
      ensures State() == if ok then CascadeDeleteUser(old(State()), id) else old(State())
    {
      ok := !fault;
      if ok {
        var s := State();
        CascadeDeleteUserKeepsConsistent(s, id);
        Assign(CascadeDeleteUser(s, id));
      }
    }
  }
}
