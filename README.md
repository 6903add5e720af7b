# Wedding invitation platform, modelled in Dafny

This project models the core of a multi-tenant wedding-invitation web app.
Each couple (a *user*) owns at most one *wedding*. A wedding has:

- a public slug;
- a theme;
- a menu configuration with five visibility flags and a saved order;
- events: the religious ceremony ("akad") and the reception ("resepsi");
- a photo gallery.

Guests send RSVPs and wishes. Administrators log in with a token. They edit a
wedding's events, theme and menu, manage users, and export the guest list.

The model covers these layers:

- **Data layer** (`src/lib/api/multi-tenant.ts`, `src/lib/api/admin.ts`).
  - The Postgres tables are plain sequences of rows in a `Database` class
    (`Schema`).
  - The predicate `Schema.Consistent` collects the primary keys, the unique
    indexes and the foreign keys that `prisma/push-schema.ts` declares.
  - Every insert fails exactly when it would break one of these constraints,
    when it leaves out a NOT NULL column that has no DEFAULT (`id`, and
    `updatedAt` where the table has one), or when an explicit `fault` flag
    says the backend failed for another reason. Every statement is proved to
    preserve `Consistent`.
  - The operations that write tables change the `Database` step by step. The
    read-only queries are functions of the table contents. The multi-step
    operations (`createUser`, `createWedding`, `updateEventData`) are methods.
    Each is proved equal to a specification function, and the properties are
    proved as lemmas about that function.
- **Token scheme of `src/lib/auth.ts`.** It has a prefix, a 7-day expiry and a
  lazy expiry check.
- **UUID validator and fallback generator of `src/lib/utils/uuid.ts`.** The
  validator follows RFC 4122: version digit per section 4.1.3, variant digit
  per section 4.1.1. The fallback generator is proved to always produce
  strings the validator accepts, as section 4.4 of RFC 4122 describes.
- **Cloudinary URL builder and the deletion flow of `src/lib/storage.ts`.**
- **Logic inside the admin and guest pages, without their rendering:**
  - menu visibility and order;
  - the guest CSV export, whose message field is quote-escaped per rule 7 of
    section 2 of RFC 4180;
  - the RSVP, event and user forms;
  - the theme presets;
  - the wish book;
  - the relative-time label;
  - the countdown.

Strings are `seq<char>`. Times are integers in milliseconds. Generated ids,
the current time, bcrypt results and random nibbles are parameters.

Modules and files:

| module | file | models |
|---|---|---|
| `Basics` | basics.dfy | `Option`, JavaScript truthiness of optional strings, `x \|\| null` |
| `Seqs` | seqs.dfy | `filter`, `map`, stable `sort`, uniqueness of keys |
| `Strings` | strings.dfy | ASCII `toLowerCase`, `includes`, JavaScript `trim`, number to decimal string, `join`/`split` |
| `Schema` | schema.dfy | rows, the schema constraints, the `Database` class, cascade delete |
| `TenantApi` | tenant_api.dfy | `src/lib/api/multi-tenant.ts` |
| `AdminApi` | admin_api.dfy | `src/lib/api/admin.ts` |
| `Auth` | auth.dfy | `src/lib/auth.ts` |
| `Uuid` | uuid.dfy | `src/lib/utils/uuid.ts` |
| `Storage` | storage.dfy | `src/lib/storage.ts` |
| `MenuPage` | menu_customization.dfy | `src/app/pages/admin/MenuCustomization.tsx` |
| `GuestListPage` | guest_list.dfy | `src/app/pages/admin/GuestList.tsx` |
| `RsvpPage` | rsvp_form.dfy | `src/app/pages/guest/RSVP.tsx` |
| `EventPage` | event_management.dfy | `src/app/pages/admin/EventManagement.tsx` |
| `UserPage` | user_management.dfy | `src/app/pages/admin/UserManagement.tsx` |
| `ThemePage` | theme_customization.dfy | `src/app/pages/admin/ThemeCustomization.tsx` |
| `WishesPage` | guest_wishes.dfy | `src/app/pages/guest/Wishes.tsx` |
| `WishesAdminPage` | wishes_management.dfy | `src/app/pages/admin/WishesManagement.tsx` |
| `HomePage` | countdown.dfy | `src/app/pages/guest/Home.tsx` |

Where the code and its comments or documentation disagree, the model follows
the code. Four cases:

- `createUser` returns `success: false` when `new Date(weddingDate)` cannot be
  formatted. At that point the user and the wedding are already stored.
- `createAdmin` stores the password as given, without hashing it.
- The RSVP page passes the wedding *slug* as `weddingId`.
- The event editor loads with `getEventData()`, which reads the first active
  wedding, but saves with `updateEventData(eventData)`, which writes the
  wedding with slug "sarah-michael". When the first active wedding has
  another slug, the editor shows one wedding and saves into another.

The comments of `createWedding` and `createUser` promise a default menu
config, and `createEvent` and `createGalleryPhoto` promise a new row. None
of them is ever stored; the Findings section below lists them.

## Model

| member | source | states |
|---|---|---|
| Basics.NonEmptyOrNone | src/lib/api/multi-tenant.ts:780 | `x \|\| null` on an optional string: a value exactly when the input is present and non-empty, and then that value |
| Basics.NonEmpty | src/app/pages/guest/RSVP.tsx:44-48 | `s \|\| null` on a form string: `None` exactly for the empty string, otherwise the string itself |
| Basics.StrOr | src/app/pages/admin/GuestList.tsx:125-126 | `o \|\| fallback`: the value when it is truthy, the fallback otherwise |
| Seqs.Filter | src/lib/api/admin.ts:150-156 | `Array.filter`: keeps exactly the elements satisfying the predicate, never grows |
| Seqs.FilterIsSubsequence | src/lib/api/admin.ts:150-156 | a filtered list keeps the relative order of the original |
| Seqs.FilterAll | src/app/pages/admin/UserManagement.tsx:71-74 | a filter every element passes returns the list unchanged |
| Seqs.FilterFilter | src/lib/api/admin.ts:150-156 | two successive filters equal one filter by the conjunction |
| Seqs.FilterAppend | src/lib/api/multi-tenant.ts:779-787 | filtering distributes over appending a row |
| Seqs.FilterMultiset | src/lib/api/admin.ts:141-156 | filtering two permutations of each other gives permutations of each other |
| Seqs.UniqueKeyMatchesAtMostOne | src/lib/api/multi-tenant.ts:474-476 | under a unique key, a lookup by that key matches at most one row |
| Seqs.SortBy | src/lib/api/multi-tenant.ts:664 | `.order(key, ascending)`: the result is sorted by the key and a permutation of the input |
| Seqs.SortByDesc | src/lib/api/admin.ts:144 | `.order(key, descending)`: sorted by decreasing key and a permutation of the input |
| Seqs.SortByOfSorted | src/lib/api/multi-tenant.ts:662-664 | sorting a list that is already sorted returns it unchanged |
| Seqs.FilterSortedDesc | src/app/pages/admin/WishesManagement.tsx:45-48 | filtering a list sorted by decreasing key keeps it sorted |
| Seqs.SortByMembers | src/lib/api/admin.ts:196 | sorting keeps exactly the same members |
| Seqs.Map | src/app/pages/admin/GuestList.tsx:123-135 | `Array.map`: same length, element `i` is `f` of input element `i` |
| Seqs.MapPermutation | src/app/pages/admin/MenuCustomization.tsx:104 | mapping two permutations of each other gives permutations of each other |
| Strings.LowerChar | src/lib/api/admin.ts:151 | ASCII `toLowerCase` of one character: capitals move down by 32, everything else stays |
| Strings.Lower | src/lib/api/admin.ts:151 | `toLowerCase` keeps the length and lowers each character independently |
| Strings.LowerIdempotent | src/lib/api/admin.ts:205-206 | lowering twice is lowering once |
| Strings.EmptyQueryMatches | src/app/pages/admin/UserManagement.tsx:71-74 | every string includes the empty query |
| Strings.IncludesIgnoresQueryCase | src/lib/api/admin.ts:151 | the case-insensitive search gives the same answer for a query and its lower-cased form |
| Strings.TrimStart | src/app/pages/admin/EventManagement.tsx:66 | the leading part `trim` drops is all white space and the rest starts with a non-space |
| Strings.TrimEnd | src/app/pages/admin/EventManagement.tsx:66 | the trailing part `trim` drops is all white space and the rest ends with a non-space |
| Strings.TrimEmptyIffBlank | src/app/pages/guest/RSVP.tsx:29 | `!s.trim()` holds exactly when every character of `s` is white space |
| Strings.NatToString | src/app/pages/guest/Wishes.tsx:61-63 | the decimal of a natural number is a non-empty run of digits |
| Strings.DigitsValueOfNatToString | src/app/pages/guest/Wishes.tsx:61-63 | the digits read back as the number |
| Strings.IntToString | src/lib/storage.ts:141-142 | `String(n)` of an integer is non-empty |
| Strings.IntToStringRoundTrip | src/lib/storage.ts:141-142 | parsing `String(n)` gives back `n`, negative numbers included |
| Strings.JoinAvoids | src/app/pages/admin/GuestList.tsx:133-136 | a character absent from the parts and from the separator is absent from the joined text |
| Strings.Split | src/app/pages/admin/MenuCustomization.tsx:104 | splitting always yields at least one field |
| Strings.SplitJoin | src/app/pages/admin/MenuCustomization.tsx:104 | splitting a join at its separator gives back the parts, when no part holds the separator |
| Schema.SingleRow | src/lib/api/multi-tenant.ts:476 | `.single()`: a row exactly when the query matched exactly one, and then that row |
| Schema.PatchWedding | src/lib/api/multi-tenant.ts:538 | an UPDATE of a wedding never changes its id, owner or slug |
| Schema.UpdateWeddingRows | src/lib/api/multi-tenant.ts:538-539 | `UPDATE ... WHERE id`: the matching rows are patched; every other row keeps its value and position |
| Schema.UpdateMenuConfigRows | src/lib/api/multi-tenant.ts:612-613 | `UPDATE ... WHERE weddingId`: the matching rows are patched; the others keep their value and position |
| Schema.UpdateEventRows | src/lib/api/multi-tenant.ts:682-683 | `UPDATE ... WHERE id` on events: the matching rows are patched; the others keep their value and position |
| Schema.InsertUserKeepsConsistent | prisma/push-schema.ts:23-26 | a user with a fresh id and a fresh email keeps every constraint |
| Schema.InsertWeddingKeepsConsistent | prisma/push-schema.ts:44-48 | a wedding with a fresh id, slug and owner, and an existing owner, keeps every constraint |
| Schema.InsertMenuConfigKeepsConsistent | prisma/push-schema.ts:65-68 | a menu config with a fresh id, for an existing wedding that has none, keeps every constraint |
| Schema.InsertEventsKeepsConsistent | prisma/push-schema.ts:87 | a batch of events with distinct fresh ids, for existing weddings, keeps every constraint |
| Schema.InsertPhotoKeepsConsistent | prisma/push-schema.ts:103 | a photo with a fresh id for an existing wedding keeps every constraint |
| Schema.InsertAdminKeepsConsistent | prisma/push-schema.ts:119-122 | an admin with a fresh id and a free username, linked to no user or to an existing user not yet linked, keeps every constraint, the unique username included |
| Schema.UpdateWeddingKeepsConsistent | prisma/push-schema.ts:44-48 | updating non-key wedding columns keeps every constraint |
| Schema.UpdateMenuConfigKeepsConsistent | prisma/push-schema.ts:65-68 | updating menu config flags and order keeps every constraint |
| Schema.UpdateEventKeepsConsistent | prisma/push-schema.ts:87 | updating non-key event columns keeps every constraint |
| Schema.DeleteRowsKeepsConsistent | prisma/push-schema.ts:125-158 | deleting events, photos or wishes by id keeps every constraint, since nothing references them |
| Schema.CascadeKeepsUniqueKeys | prisma/push-schema.ts:23-122 | after the cascading user delete, every primary key and unique index still holds |
| Schema.CascadeKeepsOtherUsers | prisma/push-schema.ts:125-129 | the cascade removes exactly the deleted user from the users |
| Schema.CascadeKeepsOtherWeddings | prisma/push-schema.ts:128-129 | the cascade removes exactly the weddings owned by that user |
| Schema.CascadeKeepsForeignKeys | prisma/push-schema.ts:125-158 | after the cascade, every remaining wedding has its owner and every menu config, event and photo has its wedding |
| Schema.CascadeKeepsAdminLinks | prisma/push-schema.ts:164-165 | after `ON DELETE SET NULL`, admin links stay unique and point only to remaining users |
| Schema.CascadeDeleteUserKeepsConsistent | prisma/push-schema.ts:125-169 | deleting a user with the declared referential actions keeps every constraint |
| Schema.Database.constructor | prisma/push-schema.ts:15-122 | the empty database satisfies every constraint |
| Schema.Database.InsertUser | prisma/push-schema.ts:23-26 | the insert succeeds exactly without a fault and with a fresh id and email; it appends the row, or leaves every table unchanged |
| Schema.Database.InsertWedding | prisma/push-schema.ts:44-48 | succeeds exactly with a fresh id, slug and owner, and an existing owner; appends the row or changes nothing |
| Schema.Database.InsertMenuConfig | prisma/push-schema.ts:54-68 | succeeds exactly without a fault, when the statement names `id` and `updatedAt`, with a fresh id, for an existing wedding without a config; appends the row or changes nothing |
| Schema.Database.InsertEvents | src/lib/api/multi-tenant.ts:250 | a multi-row insert is one statement: all rows are appended, or none is; it needs the statement to name `id` and `updatedAt` |
| Schema.Database.InsertPhoto | prisma/push-schema.ts:95-103 | succeeds exactly without a fault, when the statement names `id`, with a fresh id and an existing wedding; appends the row or changes nothing |
| Schema.Database.InsertGuest | src/lib/api/multi-tenant.ts:779 | succeeds exactly with a fresh id; guests have no foreign key, so any wedding id is accepted |
| Schema.Database.InsertWish | src/lib/api/multi-tenant.ts:823 | succeeds exactly with a fresh id; wishes have no foreign key |
| Schema.Database.InsertAdmin | prisma/push-schema.ts:119-122 | succeeds exactly with a fresh id, a free username and a free, existing user link; appends the row or changes nothing |
| Schema.Database.UpdateWedding | src/lib/api/admin.ts:348-352 | the patch is applied to the rows with that id; the other tables are unchanged; a fault changes nothing |
| Schema.Database.UpdateMenuConfig | src/lib/api/multi-tenant.ts:612-613 | the patch is applied to the wedding's config rows; a fault changes nothing |
| Schema.Database.UpdateEvent | src/lib/api/multi-tenant.ts:682-683 | the patch is applied to the event rows with that id; a fault changes nothing |
| Schema.Database.DeleteEvent | src/lib/api/multi-tenant.ts:698-699 | removes exactly the events with that id; a fault changes nothing |
| Schema.Database.DeletePhoto | src/lib/api/multi-tenant.ts:760-761 | removes exactly the photos with that id; a fault changes nothing |
| Schema.Database.DeleteWish | src/lib/api/multi-tenant.ts:860 | removes exactly the wishes with that id; a fault changes nothing |
| Schema.Database.DeleteUser | src/lib/api/multi-tenant.ts:408-411 | the state becomes the cascading delete of the user, and stays consistent |
| TenantApi.MenuConfigRow | src/lib/api/multi-tenant.ts:560-568 | each `show*` flag is true unless an explicit `false` was passed; an absent or empty `customOrder` becomes "home,details,rsvp,gallery,wishes" |
| TenantApi.DefaultMenuConfigShowsEverything | src/lib/api/multi-tenant.ts:457 | the config `createWedding` and `createUser` ask for shows all five sections in the default order, for that wedding |
| TenantApi.CreateMenuConfig | src/lib/api/multi-tenant.ts:552-583 | the statement leaves out `id` and `updatedAt`, so the call always reports failure and changes nothing |
| TenantApi.CreateMenuConfigWithKey | src/lib/api/multi-tenant.ts:558-568 | corrected to name a generated key and `updatedAt`: succeeds exactly when the row is insertable, so never a second config for a wedding; appends the row or changes nothing |
| TenantApi.GetMenuConfigByWeddingId | src/lib/api/multi-tenant.ts:585-603 | a returned config is stored and belongs to that wedding; a failing query returns null |
| TenantApi.GetMenuConfigFindsStoredConfig | src/lib/api/multi-tenant.ts:588-591 | in a consistent store, a config is found exactly when the wedding has one |
| TenantApi.UpdateMenuConfig | src/lib/api/multi-tenant.ts:605-622 | the patch is applied to the wedding's config and only there; a failure changes nothing |
| TenantApi.WeddingRow | src/lib/api/multi-tenant.ts:438-451 | the new wedding is active with the given owner, slug, names and date; theme "rose", "#e11d48", "#ec4899" and "serif" replace absent or empty inputs |
| TenantApi.CreateWedding | src/lib/api/multi-tenant.ts:427-467 | the new state and the result are those of the specification `CreateWeddingSpec` |
| TenantApi.CreateWeddingRejectsTakenSlugOrOwner | src/lib/api/multi-tenant.ts:452-454 | a taken slug or an owner who already has a wedding gives success false and changes nothing |
| TenantApi.CreateWeddingWritesOnlyTheWedding | src/lib/api/multi-tenant.ts:436-466 | success exactly when the wedding is insertable; on failure nothing changes; on success the wedding is appended and no other table changes, the menu configs included |
| TenantApi.CreateWeddingLeavesNoMenuConfig | src/lib/api/multi-tenant.ts:456-457 | in a consistent store, no menu config is found for a wedding that `createWedding` has just created |
| TenantApi.CreateWeddingWithKey | src/lib/api/multi-tenant.ts:427-467 | `createWedding` with the corrected config insert: the new state and the result are those of `CreateWeddingWithKeySpec` |
| TenantApi.CreateWeddingWithKeySetsUpMenuConfig | src/lib/api/multi-tenant.ts:456-457 | with the corrected config insert and a fresh config key, every wedding created gets its default menu config, found by the wedding's id |
| TenantApi.GetWeddingBySlug | src/lib/api/multi-tenant.ts:469-485 | a returned wedding is stored, has that slug and is active |
| TenantApi.GetWeddingBySlugFindsActiveWedding | src/lib/api/multi-tenant.ts:474-476 | in a consistent store, a wedding is returned exactly when an active wedding has the slug |
| TenantApi.GetWeddingByUserId | src/lib/api/multi-tenant.ts:487-502 | a returned wedding is stored and owned by that user, active or not |
| TenantApi.GetWeddingByUserIdFindsOwnedWedding | src/lib/api/multi-tenant.ts:492-493 | in a consistent store, a wedding is returned exactly when the user owns one |
| TenantApi.UpdateWeddingTheme | src/lib/api/multi-tenant.ts:529-548 | only theme and the two colours of that wedding change; font, slug, names, date, owner, activity and every other wedding stay |
| TenantApi.EventRow | src/lib/api/multi-tenant.ts:633-645 | the new event is active, carries the given fields, and has `order` 0 when none is given |
| TenantApi.CreateEvent | src/lib/api/multi-tenant.ts:626-655 | the statement leaves out `id` and `updatedAt`, so the call always reports failure and changes nothing |
| TenantApi.CreateEventWithKey | src/lib/api/multi-tenant.ts:633-643 | corrected to name a generated key and `updatedAt`: succeeds exactly with a fresh id and an existing wedding; appends the row or changes nothing |
| TenantApi.CreatedEventIsListed | src/lib/api/multi-tenant.ts:657-673 | an event the corrected `createEvent` stores is listed for its wedding, beside exactly the events listed before |
| TenantApi.GetEventsByWeddingId | src/lib/api/multi-tenant.ts:657-673 | exactly the wedding's active events, as a permutation of them, sorted by ascending `order`; `[]` on failure |
| TenantApi.UpdateEvent | src/lib/api/multi-tenant.ts:675-692 | the patch is applied to that event only; a failure changes nothing |
| TenantApi.DeleteEvent | src/lib/api/multi-tenant.ts:694-708 | afterwards, an event is stored exactly when it was stored before and has another id |
| TenantApi.PhotoRow | src/lib/api/multi-tenant.ts:719-727 | the new photo is active, carries the given fields, and has `order` 0 when none is given |
| TenantApi.CreateGalleryPhoto | src/lib/api/multi-tenant.ts:712-736 | the statement leaves out `id`, so the call always reports failure and changes nothing |
| TenantApi.CreateGalleryPhotoWithKey | src/lib/api/multi-tenant.ts:719-724 | corrected to name a generated key: succeeds exactly with a fresh id and an existing wedding; appends the row or changes nothing |
| TenantApi.CreatedPhotoIsListed | src/lib/api/multi-tenant.ts:738-754 | a photo the corrected `createGalleryPhoto` stores is listed for its wedding, beside exactly the photos listed before |
| TenantApi.GetGalleryByWeddingId | src/lib/api/multi-tenant.ts:738-754 | exactly the wedding's active photos, as a permutation of them, sorted by ascending `order`; `[]` on failure |
| TenantApi.DeleteGalleryPhoto | src/lib/api/multi-tenant.ts:756-770 | afterwards, a photo is stored exactly when it was stored before and has another id |
| TenantApi.GuestRow | src/lib/api/multi-tenant.ts:779-787 | name and attendance are stored unchanged; `guestCount` is kept only for attendance exactly "hadir"; wedding id, email, phone and message are null exactly when absent or empty |
| TenantApi.GuestCountOnlyWhenAttending | src/lib/api/multi-tenant.ts:785 | a stored guest count implies attendance "hadir" and a given count |
| TenantApi.SubmitRSVP | src/lib/api/multi-tenant.ts:774-799 | succeeds exactly when the normalised row is insertable, and then appends it; a failure changes nothing |
| TenantApi.GetGuestsByWeddingId | src/lib/api/multi-tenant.ts:801-816 | exactly the wedding's guests, as a permutation of them, newest first; `[]` on failure |
| TenantApi.WishRow | src/lib/api/multi-tenant.ts:823-827 | name and message are stored unchanged; the wedding id is null exactly when absent or empty |
| TenantApi.SubmitWish | src/lib/api/multi-tenant.ts:818-839 | succeeds exactly when the row is insertable, and then appends it; a failure changes nothing |
| TenantApi.GetWishesByWeddingId | src/lib/api/multi-tenant.ts:841-856 | exactly the wedding's wishes, as a permutation of them, newest first; `[]` on failure |
| TenantApi.DeleteWish | src/lib/api/multi-tenant.ts:858-869 | afterwards, a wish is stored exactly when it was stored before and has another id |
| TenantApi.NewUser | src/lib/api/multi-tenant.ts:196-205 | the new user is active, with the given email and name and the hashed password |
| TenantApi.SetupWedding | src/lib/api/multi-tenant.ts:214-232 | the auto-created wedding belongs to the new user, uses the slug, date and user name, and the default theme, colours and font |
| TenantApi.DefaultEvents | src/lib/api/multi-tenant.ts:250-279 | two active events of the new wedding on the same date: "akad" with order 0, then "resepsi" with order 1 |
| TenantApi.CreateUser | src/lib/api/multi-tenant.ts:180-287 | the new state and the result are those of the specification `CreateUserSpec` |
| TenantApi.CreateUserWritesOneUser | src/lib/api/multi-tenant.ts:196-210 | exactly one user is appended when insertable; otherwise nothing changes and the call fails; a taken email always fails |
| TenantApi.CreateUserWithoutSetupWritesNoWedding | src/lib/api/multi-tenant.ts:214 | without `setupWedding`, slug and date, no wedding, menu config or event is written and no wedding id is returned |
| TenantApi.CreateUserSurvivesWeddingFailure | src/lib/api/multi-tenant.ts:237-238 | when the wedding insert fails, only the user is written and the result is success with no wedding id |
| TenantApi.NoRowOfNewWedding | prisma/push-schema.ts:137-147 | in a consistent store, a wedding id that does not exist has no menu config and no events |
| TenantApi.NewUserOwnsNoWedding | prisma/push-schema.ts:128-129 | in a consistent store, a user id not yet taken owns no wedding |
| TenantApi.CreateUserSetUpGoesThrough | src/lib/api/multi-tenant.ts:196-282 | when the user, wedding and event statements are accepted, exactly the user, the wedding and both events are appended (no menu config) and both ids returned |
| TenantApi.SetupWeddingAccepted | prisma/push-schema.ts:44-48 | after inserting a fresh user, a wedding with fresh id and slug owned by that user is insertable |
| TenantApi.SetupMenuConfigAccepted | prisma/push-schema.ts:65-68 | after inserting an insertable wedding, a config for it with a fresh key meets every key and foreign-key constraint |
| TenantApi.SetupEventsAccepted | prisma/push-schema.ts:87 | after inserting an insertable wedding, two fresh distinct events for it are insertable |
| TenantApi.SetUpAccepted | src/lib/api/multi-tenant.ts:196-279 | with fresh ids and slug, the wedding and event inserts that follow the user insert are both accepted |
| TenantApi.CreateUserSetsUpTenant | src/lib/api/multi-tenant.ts:180-287 | with fresh ids and a free slug, the new wedding resolves by its slug and its events are exactly akad then resepsi, but no menu config is found for it |
| TenantApi.NewWeddingResolves | src/lib/api/multi-tenant.ts:474-476 | a new active wedding with a free slug is the only one the slug lookup matches |
| TenantApi.DefaultEventsListed | src/lib/api/multi-tenant.ts:662-664 | the events listed for a new wedding are the two defaults in that order |
| TenantApi.DefaultEventsInOrder | src/lib/api/multi-tenant.ts:264-276 | the default events are already sorted by `order` |
| TenantApi.DefaultEventsAreTheOnlyOnes | src/lib/api/multi-tenant.ts:252-279 | the active events of a new wedding are exactly the two defaults |
| TenantApi.DeleteUser | src/lib/api/multi-tenant.ts:406-423 | a successful delete turns the state into the cascading delete of the user; a failure changes nothing |
| TenantApi.DeleteUserRemovesTenant | src/lib/api/multi-tenant.ts:406-411 | the user and their wedding go, with its menu config, events and photos; other users' rows stay; guests and wishes are untouched; no admin still links the user |
| TenantApi.FirstActiveWedding | src/lib/api/multi-tenant.ts:897-902 | the earliest created active wedding; found exactly when some active wedding exists |
| TenantApi.GetFirstActiveWedding | src/lib/api/multi-tenant.ts:893-910 | the slug of an earliest created active wedding; found exactly when one exists, unless the query fails |
| TenantApi.AdminRow | src/lib/api/multi-tenant.ts:974-980 | the admin row carries the given username, password and user link, with role "admin" when none or an empty one is given |
| TenantApi.CreateAdmin | src/lib/api/multi-tenant.ts:963-991 | succeeds exactly when the row is insertable, and then appends it and returns it; otherwise returns no admin and changes nothing; a username some admin already has is always refused |
| AdminApi.GetDashboardStats | src/lib/api/admin.ts:70-103 | total guests counts every guest of every wedding; the total wishes is 0 when its count fails; any guest query failure gives all-zero stats |
| AdminApi.StatusCountsAtMostTotal | src/lib/api/admin.ts:82-88 | the three status counts sum to at most the number of guests, with equality when every attendance is one of the three codes |
| AdminApi.DashboardStatsAddUp | src/lib/api/admin.ts:82-92 | on the dashboard, hadir + tidak-hadir + belum-pasti is at most the total, with equality when every code is known |
| AdminApi.StoredRsvpRaisesStats | src/lib/api/admin.ts:72-88 | one more stored RSVP raises the total and its own status counter by one, and nothing else |
| AdminApi.GetGuests | src/lib/api/admin.ts:139-163 | a failing query returns `[]` |
| AdminApi.GetGuestsSelects | src/lib/api/admin.ts:141-156 | the result is a subsequence of all guests newest first, still newest first, holding exactly the guests whose name contains the query (case-insensitively) and whose attendance matches a filter other than "all" |
| AdminApi.GetGuestsUnfilteredListsAll | src/lib/api/admin.ts:148-156 | with no search and no filter (or "all"), every guest is listed, newest first |
| AdminApi.GetWishes | src/lib/api/admin.ts:191-215 | a subsequence of all wishes newest first, holding exactly those whose name or message contains a non-empty query (case-insensitively); `[]` on failure |
| AdminApi.GetWishesWithoutQueryListsAll | src/lib/api/admin.ts:200-208 | an empty or absent search lists every wish, newest first |
| AdminApi.FindType | src/lib/api/admin.ts:254-255 | `find(e => e.eventType === t)`: an index of an event of that type, or none when no event has the type |
| AdminApi.FirstIndexUnique | src/lib/api/admin.ts:254-255 | the index found is the first event of that type |
| AdminApi.EventDataTakesFirstOfEachType | src/lib/api/admin.ts:254-268 | couple name and date come from the wedding; the akad and resepsi fields come from the first event of each type, or are "" when there is none |
| AdminApi.GetPublicEventData | src/lib/api/admin.ts:232-276 | data exactly when some active wedding exists, and then from an earliest created active wedding and its events |
| AdminApi.WeddingBySlug | src/lib/api/admin.ts:301-304 | a returned wedding is stored and has that slug, whether active or not |
| AdminApi.WeddingBySlugFinds | src/lib/api/admin.ts:303-304 | in a consistent store, a wedding is found by its slug exactly when it is stored with that slug |
| AdminApi.WeddingBySlugNone | src/lib/api/admin.ts:303-304 | in a consistent store, nothing is found exactly when no wedding has the slug |
| AdminApi.ResolveSlug | src/lib/api/admin.ts:281-289 | the given slug when non-empty; otherwise the first active wedding's slug when it has one; otherwise "sarah-michael" |
| AdminApi.GetEventData | src/lib/api/admin.ts:278-330 | a failing wedding query returns null |
| AdminApi.GetEventDataReadsWeddingWithSlug | src/lib/api/admin.ts:291-322 | the wedding with the resolved slug is read, active or not, with its events; with no such wedding the result is null |
| AdminApi.GetEventDataDefaultsToFirstActive | src/lib/api/admin.ts:281-289 | without a slug, the earliest created active wedding is the one read |
| AdminApi.RewriteEvent | src/lib/api/admin.ts:361-383 | rewriting keeps an event's id, wedding and type |
| AdminApi.RewrittenEvents | src/lib/api/admin.ts:355-383 | every event row keeps its position; a row of the wedding whose own update did not fail is rewritten from the form, every other row stays |
| AdminApi.UpdateEventData | src/lib/api/admin.ts:332-394 | the new state and the result are those of the specification `UpdateEventDataSpec` |
| AdminApi.RewriteWeddingEvents | src/lib/api/admin.ts:361-383 | the loop over the fetched events leaves the event table equal to `RewrittenEvents` and changes no other table |
| AdminApi.SyncFetchedEvent | src/lib/api/admin.ts:362-382 | one loop body: an akad or resepsi event gets its update unless it fails; other types are skipped |
| AdminApi.LoopCoversWedding | src/lib/api/admin.ts:361-383 | once every fetched event has been handled, the table is the fully rewritten one |
| AdminApi.RewriteStep | src/lib/api/admin.ts:362-382 | handling the next fetched event extends the rewritten prefix by that event |
| AdminApi.UpdateEventDataNeedsWedding | src/lib/api/admin.ts:334-342 | false, with nothing changed, exactly when the lookup fails or no wedding has the slug (default "sarah-michael") |
| AdminApi.UpdateEventDataRewrites | src/lib/api/admin.ts:344-389 | the wedding gets the new couple name and date; each of its akad and resepsi events gets the date and that type's time, location and address; all other rows and tables are unchanged |
| AdminApi.ActiveWeddingsNewestFirst | src/lib/api/admin.ts:403-405 | exactly the active weddings as a permutation, newest first |
| AdminApi.GetAllWeddings | src/lib/api/admin.ts:399-413 | one summary per active wedding; `[]` on failure |
| AdminApi.GetAllWeddingsListsActive | src/lib/api/admin.ts:399-408 | a summary is listed exactly when it is the summary of an active wedding |
| AdminApi.LoginAdmin | src/lib/api/admin.ts:417-452 | success only for a stored admin with that username whose password matches and whose claims can be encoded, with that admin's token and no error; otherwise no token and an error; an unknown username gives "Username tidak ditemukan"; any other message than the two is that of an exception from the comparison or from `btoa` |
| AdminApi.LoginWithOneAdmin | src/lib/api/admin.ts:428-450 | with one admin of that name, success exactly when the password matches and the claims are Latin-1; a mismatch gives "Password salah", an exception its message; the token verifies until it expires, with the admin's id, username and role |
| AdminApi.DuplicateUsernameRefused | src/lib/api/admin.ts:422-430 | the `.single()` lookup alone: in a state where two admins share a username, the login answers "Username tidak ditemukan" |
| AdminApi.StoredAdminIsTheOnlyMatch | src/lib/api/admin.ts:422-426 | in a consistent database the lookup by a stored admin's username matches exactly that admin, so `.single()` finds it |
| Auth.IndexOf | src/lib/auth.ts:45 | the first position of a character, or none when it does not occur |
| Auth.DecodeEncodeStr | src/lib/auth.ts:31-35 | a string field decodes back from its encoding, whatever follows it |
| Auth.DecodeEncodeOptStr | src/lib/auth.ts:31-35 | an optional string field decodes back from its encoding, whatever follows it |
| Auth.DecodeEncodeOptInt | src/lib/auth.ts:31-35 | an optional integer field (such as `exp`) decodes back from its encoding, whatever follows it |
| Auth.DecodeEncodePayload | src/lib/auth.ts:31-35 | a payload decodes back from its encoding |
| Auth.EncodePayloadInjective | src/lib/auth.ts:31-35 | different payloads have different encodings |
| Auth.GenerateToken | src/lib/auth.ts:29-36 | a token exactly when every claim is Latin-1 (`btoa` throws otherwise), and every token starts with "demo_token_" |
| Auth.VerifyToken | src/lib/auth.ts:41-57 | a string without the prefix is refused; an accepted payload has not expired at the given time |
| Auth.VerifyGeneratedToken | src/lib/auth.ts:29-52 | up to and including issue time + 604800000 ms, a generated token verifies to its claims plus that `exp` |
| Auth.GeneratedTokenExpires | src/lib/auth.ts:48-50 | strictly after issue time + 604800000 ms, a generated token is refused (unless that sum is 0, which the falsy check reads as no expiry) |
| Auth.NoExpiryNeverExpires | src/lib/auth.ts:48 | a decodable token with no `exp`, or `exp` 0, is accepted at any time |
| Auth.VerifyMonotoneInTime | src/lib/auth.ts:48-50 | a token accepted at some time was accepted, with the same payload, at every earlier time |
| Auth.UndecodablePayloadRefused | src/lib/auth.ts:53-56 | a prefixed token whose payload does not decode is refused, not an error |
| Auth.IsAuthenticated | src/lib/auth.ts:83-89 | true exactly when a token is stored and it verifies |
| Auth.GetCurrentUser | src/lib/auth.ts:94-99 | the stored token's verified payload; present exactly when authenticated |
| Uuid.ValidUUIDGroups | src/lib/utils/uuid.ts:30 | an accepted UUID splits at "-" into five hex groups of lengths 8, 4, 4, 4 and 12 |
| Uuid.ValidUUIDIgnoresCase | src/lib/utils/uuid.ts:30 | the validator accepts a string exactly when it accepts its lower-cased form |
| Uuid.HexDigit | src/lib/utils/uuid.ts:21 | `v.toString(16)` of a nibble is one lower-case hex digit |
| Uuid.VariantNibble | src/lib/utils/uuid.ts:20-21 | `(r & 0x3) \| 0x8` is `r % 4 + 8`, in 8..11 |
| Uuid.VariantDigit | src/lib/utils/uuid.ts:20-21 | the variant nibble prints as one of 8, 9, a, b |
| Uuid.Fill | src/lib/utils/uuid.ts:19-22 | the template `replace` keeps the length |
| Uuid.FillShape | src/lib/utils/uuid.ts:19-22 | each "x" becomes a lower-case hex digit, "y" becomes one of 8, 9, a, b, and every other character is kept |
| Uuid.FillHexAtX | src/lib/utils/uuid.ts:19-22 | each "x" becomes a lower-case hex digit |
| Uuid.FillVariantAtY | src/lib/utils/uuid.ts:20-22 | each "y" becomes one of 8, 9, a, b |
| Uuid.FillKeepsOthers | src/lib/utils/uuid.ts:19-22 | every character other than "x" and "y" is kept in place |
| Uuid.TemplateShape | src/lib/utils/uuid.ts:19 | the template has 36 characters, hyphens at 8, 13, 18 and 23, "4" at 14, "y" at 19 and "x" elsewhere |
| Uuid.TemplatePlaceholders | src/lib/utils/uuid.ts:19 | the template has 31 placeholders, one random nibble each |
| Uuid.FallbackUUID | src/lib/utils/uuid.ts:19-23 | the fallback output has 36 characters |
| Uuid.FallbackIsValid | src/lib/utils/uuid.ts:19-30 | every fallback output passes the validator, has version digit "4", a variant digit in 8..b, and keeps the four hyphens |
| Uuid.FillShapedTemplate | src/lib/utils/uuid.ts:19-22 | filling any template of this shape gives a string the validator accepts |
| Uuid.FillTemplateShape | src/lib/utils/uuid.ts:19-22 | filling a template of this shape keeps the hyphens and the "4" and puts hex digits and the variant digit in place |
| Uuid.FallbackShape | src/lib/utils/uuid.ts:30 | a 36-character string with hex digits, the four hyphens, "4" at 14 and one of 8, 9, a, b at 19 is accepted |
| Uuid.GenerateUUID | src/lib/utils/uuid.ts:12-24 | the native UUID when the browser has one; otherwise a fallback that the validator accepts |
| Storage.GetCloudinaryUrl | src/lib/storage.ts:130-151 | the method that pushes the entries returns exactly the URL `CloudinaryUrl` defines |
| Storage.TransformationPieces | src/lib/storage.ts:139-144 | at most four entries, in rank order, one per truthy option |
| Storage.PlainUrlWithoutOptions | src/lib/storage.ts:146-150 | with no options, or only falsy ones, the URL is the base, the cloud name, "/image/upload/" and the public id, with no segment |
| Storage.TransformationOrder | src/lib/storage.ts:139-144 | every entry is a kind letter and "_", and ranks strictly increase: w_, h_, q_, c_ whatever order the options were given in |
| Storage.TransformationPresence | src/lib/storage.ts:141-144 | an entry appears exactly when its option is truthy, with its value after the prefix; width 0 or an empty quality or crop is dropped |
| Storage.SegmentSplitsBack | src/lib/storage.ts:146-150 | with some entry, the URL is the base, the entries joined by "," and exactly one "/" before the public id; the segment splits back into the entries |
| Storage.NoCommaInNumber | src/lib/storage.ts:141-142 | a number's decimal never holds a comma |
| Storage.UploadImage | src/lib/storage.ts:17-56 | success exactly for an ok response, with its url and public id and no error; a failure has no url and carries a message; a rejection carries the body's message or "Upload failed" |
| Storage.UploadFailureHasMessage | src/lib/storage.ts:37-54 | a failed upload always carries a message, "Upload failed" when none was given |
| Storage.DeleteImage | src/lib/storage.ts:78-125 | returns true on every path; the request is sent exactly when both credentials are non-empty |
| MenuPage.Ids | src/app/pages/admin/MenuCustomization.tsx:104 | `items.map(i => i.id)`: the ids position by position |
| MenuPage.IdsOfTemplate | src/app/pages/admin/MenuCustomization.tsx:22-28 | the template's ids are home, details, rsvp, gallery, wishes |
| MenuPage.LoadItems | src/app/pages/admin/MenuCustomization.tsx:65-68 | the loaded items are the template in template order, each visible as the stored flag says |
| MenuPage.LoadData | src/app/pages/admin/MenuCustomization.tsx:51-81 | no wedding leaves the page state as it was; a found wedding and config give items in template order |
| MenuPage.LoadIgnoresSavedOrder | src/app/pages/admin/MenuCustomization.tsx:65-68 | loading does not depend on the stored `customOrder` |
| MenuPage.ToggleVisibility | src/app/pages/admin/MenuCustomization.tsx:83-89 | the items with that key flip `visible`; every other field, every other item and the order are unchanged |
| MenuPage.ToggleTwice | src/app/pages/admin/MenuCustomization.tsx:84-88 | toggling the same key twice restores the list |
| MenuPage.ToggleUnknownKey | src/app/pages/admin/MenuCustomization.tsx:84-88 | toggling a key no item has changes nothing |
| MenuPage.TogglesCommute | src/app/pages/admin/MenuCustomization.tsx:84-88 | toggling two keys gives the same list in either order |
| MenuPage.IdsPermutation | src/app/pages/admin/MenuCustomization.tsx:211 | reordering the items reorders their ids |
| MenuPage.ArrangementsAreKept | src/app/pages/admin/MenuCustomization.tsx:65-89 | the template, a load, a toggle and a drag reorder all give a reordering of the five template items |
| MenuPage.FindByKey | src/app/pages/admin/MenuCustomization.tsx:99-103 | `find(i => i.key === key)`: the first item with that key, none when no item has it |
| MenuPage.BuildConfig | src/app/pages/admin/MenuCustomization.tsx:98-105 | the saved config sets all five flags and the order |
| MenuPage.SavedFlagsFollowItems | src/app/pages/admin/MenuCustomization.tsx:99-103 | each saved flag is the `visible` of the first item with that key, or true when no item has it |
| MenuPage.SavedFlagAt | src/app/pages/admin/MenuCustomization.tsx:99-103 | for template-keyed items, each flag saved is that item's visibility |
| MenuPage.SavedOrderIsPermutation | src/app/pages/admin/MenuCustomization.tsx:22-28 | the saved order splits back into the current ids, a permutation of home, details, rsvp, gallery, wishes |
| MenuPage.HandleSave | src/app/pages/admin/MenuCustomization.tsx:91-107 | nothing is sent without a loaded config; otherwise it is sent for that config's wedding |
| MenuPage.SaveThenLoad | src/app/pages/admin/MenuCustomization.tsx:65-107 | saving and then loading gives back each item's visibility (the order comes back as the template's, by `MenuPage.LoadIgnoresSavedOrder`) |
| MenuPage.Preview | src/app/pages/admin/MenuCustomization.tsx:284 | the preview holds exactly the visible items |
| MenuPage.PreviewKeepsOrder | src/app/pages/admin/MenuCustomization.tsx:284 | the preview keeps the current order, and shows everything when every item is visible |
| GuestListPage.AttendanceLabel | src/app/pages/admin/GuestList.tsx:84-95 | the three codes map to "Hadir", "Tidak Hadir" and "Belum Pasti"; any other code is shown unchanged |
| GuestListPage.CountStatuses | src/app/pages/admin/GuestList.tsx:247-255 | the three counters sum to at most the number of loaded guests |
| GuestListPage.CountsMatchDashboard | src/app/pages/admin/GuestList.tsx:247-255 | the page's counters equal the dashboard's over the same guests, and sum to the total when every code is known |
| GuestListPage.EscapeQuotes | src/app/pages/admin/GuestList.tsx:129 | `replace(/"/g, '""')`: a text without quotes is unchanged, and escaping never shortens |
| GuestListPage.UnescapeEscape | src/app/pages/admin/GuestList.tsx:129 | a CSV reader that turns `""` back into `"` recovers the message |
| GuestListPage.GuestFields | src/app/pages/admin/GuestList.tsx:123-131 | each guest row has exactly as many fields as the header |
| GuestListPage.CsvLines | src/app/pages/admin/GuestList.tsx:133-136 | the header line, then one line per guest in order, each its fields joined by "," |
| GuestListPage.GuestColumns | src/app/pages/admin/GuestList.tsx:124-130 | name, email and phone are quoted as they are; the count column holds the count (or "0") only for "hadir" and is empty otherwise; the message is quoted and recoverable; the date column is the formatted RSVP time |
| GuestListPage.CsvSplitsIntoRecords | src/app/pages/admin/GuestList.tsx:133-139 | the file starts with the byte-order mark, and its content splits at line feeds back into the header and the guest lines |
| RsvpPage.HandleChange | src/app/pages/guest/RSVP.tsx:69-76 | only the named field takes the new value |
| RsvpPage.HandleChangeLastWins | src/app/pages/guest/RSVP.tsx:72-75 | writing a field's own value changes nothing; of two writes to one field, the last wins |
| RsvpPage.Payload | src/app/pages/guest/RSVP.tsx:41-49 | name and attendance are passed as typed; the guest count only for "hadir"; empty email, phone, message and slug become null |
| RsvpPage.SubmitStepOf | src/app/pages/guest/RSVP.tsx:25-53 | refused with nothing sent exactly when the trimmed name or the attendance is empty, the name check first; otherwise the payload goes to the multi-tenant API exactly when a slug is given |
| RsvpPage.HandleSubmit | src/app/pages/guest/RSVP.tsx:53-60 | the form is kept; `submitted` is true afterwards exactly when it already was, or the form was sent and the result reports success |
| RsvpPage.SentFormStoredRow | src/app/pages/guest/RSVP.tsx:41-53 | the row stored for a sent form has a non-blank name, a non-empty attendance, the slug as wedding id, and the count only for "hadir" |
| RsvpPage.InitialFormRefused | src/app/pages/guest/RSVP.tsx:13-32 | the initial, empty form is refused for its missing name |
| EventPage.HandleChange | src/app/pages/admin/EventManagement.tsx:101-106 | only the named field takes the new value |
| EventPage.ValidIffNoCheckFails | src/app/pages/admin/EventManagement.tsx:65-99 | valid exactly when the date is non-empty and the couple name and all six akad and resepsi fields are non-blank after trimming |
| EventPage.ReportsFirstFailure | src/app/pages/admin/EventManagement.tsx:66-97 | the error reported is the message of the first check that fails |
| EventPage.BlankDatePasses | src/app/pages/admin/EventManagement.tsx:70 | a date of one space passes validation although it is blank |
| EventPage.LoadEventData | src/app/pages/admin/EventManagement.tsx:41-63 | a thrown load resets the form to the defaults; otherwise `hasData` says whether data came back, and the form holds it |
| EventPage.SubmitCall | src/app/pages/admin/EventManagement.tsx:108-119 | `updateEventData` is called exactly when validation passes, with the form's fields |
| EventPage.HandleSubmit | src/app/pages/admin/EventManagement.tsx:108-132 | the form is kept; `hasData` is true afterwards exactly when it already was, or a valid form was saved successfully |
| EventPage.SubmittedFormReachesWedding | src/app/pages/admin/EventManagement.tsx:119 | a valid form saved for the default wedding succeeds and writes its names, date and akad fields to that wedding's rows |
| UserPage.CreateInput | src/app/pages/admin/UserManagement.tsx:55 | `createUser` gets the form's name, email and password and no wedding setup |
| UserPage.CreateCall | src/app/pages/admin/UserManagement.tsx:49-55 | `createUser` is not called exactly when name, email or password is empty, untrimmed |
| UserPage.HandleCreateUser | src/app/pages/admin/UserManagement.tsx:46-69 | a success resets the form, closes the modal and shows the reloaded users; anything else leaves the page as it was |
| UserPage.CreatedUserGetsNoWedding | src/app/pages/admin/UserManagement.tsx:55 | a user created from this page gets no wedding, menu config or events |
| UserPage.FilteredUsers | src/app/pages/admin/UserManagement.tsx:71-74 | exactly the users whose name or email contains the query, case-insensitively |
| UserPage.FilteredUsersKeepsOrder | src/app/pages/admin/UserManagement.tsx:71-74 | the search keeps the loaded order, and an empty query keeps every user |
| ThemePage.PresetIdsDistinct | src/app/pages/admin/ThemeCustomization.tsx:13-70 | eight presets with pairwise distinct ids |
| ThemePage.FindPreset | src/app/pages/admin/ThemeCustomization.tsx:127 | a preset with that id from the table, none exactly when no preset has the id |
| ThemePage.FindPresetAt | src/app/pages/admin/ThemeCustomization.tsx:127 | with distinct ids, looking up a preset's id finds that preset |
| ThemePage.PresetLookup | src/app/pages/admin/ThemeCustomization.tsx:13-70 | every preset is found by its id; the first, rose, has the colours a new wedding starts with |
| ThemePage.PreviewGradient | src/app/pages/admin/ThemeCustomization.tsx:226-228 | the selected preset's gradient, the rose gradient when no preset has the theme |
| ThemePage.UnknownThemePreviewsAsRose | src/app/pages/admin/ThemeCustomization.tsx:227 | a theme with no preset previews exactly like rose |
| ThemePage.ThemeEditor.constructor | src/app/pages/admin/ThemeCustomization.tsx:75-82 | the editor starts on rose, its two colours and the serif font, with no wedding |
| ThemePage.ThemeEditor.LoadWedding | src/app/pages/admin/ThemeCustomization.tsx:101-123 | a found wedding fills the theme, both colours and the font; otherwise nothing changes |
| ThemePage.ThemeEditor.HandleThemeSelect | src/app/pages/admin/ThemeCustomization.tsx:125-132 | the theme is always taken; with a preset the colours become its colours, otherwise they stay; wedding and font stay |
| ThemePage.ThemeEditor.SetCustomPrimary | src/app/pages/admin/ThemeCustomization.tsx:288-297 | the primary colour becomes the input's value; everything else stays |
| ThemePage.ThemeEditor.SetCustomSecondary | src/app/pages/admin/ThemeCustomization.tsx:309-318 | the secondary colour becomes the input's value; everything else stays |
| ThemePage.ThemeEditor.SelectFont | src/app/pages/admin/ThemeCustomization.tsx:336-351 | the checked option's font becomes the selected font; theme, colours and wedding stay |
| ThemePage.ThemeEditor.SaveCall | src/app/pages/admin/ThemeCustomization.tsx:134-144 | nothing is sent without a wedding; otherwise its id, the theme and the two colours, never the font |
| ThemePage.SaveKeepsStoredFont | src/app/pages/admin/ThemeCustomization.tsx:139-144 | saving writes that wedding's theme and colours only: every stored font, and every other wedding, stays |
| WishesPage.NewestFirst | src/app/pages/guest/Wishes.tsx:26-28 | the shown list is a permutation of the stored wishes, sorted by decreasing time |
| WishesPage.LatestWishLoadsFirst | src/app/pages/guest/Wishes.tsx:24-50 | once the newest wish is stored, the next load holds it and starts with a wish of its time |
| WishesPage.ElapsedSeconds | src/app/pages/guest/Wishes.tsx:58 | `Math.floor(ms / 1000)`: rounds down, also for future times |
| WishesPage.FormatDateBuckets | src/app/pages/guest/Wishes.tsx:55-64 | "Baru saja" exactly under 60 s, future times included; then whole minutes below an hour, whole hours below a day, whole days beyond, each bounded |
| WishesPage.WishBoard.constructor | src/app/pages/guest/Wishes.tsx:13-22 | the page mounts over the stored list, shows it newest first, with an empty form |
| WishesPage.WishBoard.LoadWishes | src/app/pages/guest/Wishes.tsx:24-29 | the shown list becomes the stored list newest first; nothing else changes |
| WishesPage.WishBoard.HandleSubmit | src/app/pages/guest/Wishes.tsx:31-53 | refused, changing nothing, exactly when name or message is empty; otherwise the wish is appended to the stored list, prepended to the shown one (each grows by one) and the form is emptied |
| WishesAdminPage.LoadWishes | src/app/pages/admin/WishesManagement.tsx:29-34 | the shown list is a permutation of the stored one, newest first |
| WishesAdminPage.HandleDelete | src/app/pages/admin/WishesManagement.tsx:36-43 | an unconfirmed delete changes nothing; a confirmed one keeps exactly the wishes with another id and stores that same list |
| WishesAdminPage.DeleteKeepsOthers | src/app/pages/admin/WishesManagement.tsx:38 | the others keep their order; an absent id changes nothing; deleting again changes nothing more |
| WishesAdminPage.FilteredWishes | src/app/pages/admin/WishesManagement.tsx:45-48 | exactly the wishes whose name or message contains the query, case-insensitively |
| WishesAdminPage.FilteredWishesKeepOrder | src/app/pages/admin/WishesManagement.tsx:45-48 | the search keeps the shown order (so newest first after a load), and an empty query keeps every wish |
| HomePage.Decompose | src/app/pages/guest/Home.tsx:24-27 | hours below 24, minutes and seconds below 60 |
| HomePage.DivisionsCompose | src/app/pages/guest/Home.tsx:24-27 | dividing by 1000, 60, 60 and 24 step by step is dividing by their products |
| HomePage.DecomposeAddsUp | src/app/pages/guest/Home.tsx:24-27 | the four fields add back up to the difference, short of less than a second |
| HomePage.DecomposeUnique | src/app/pages/guest/Home.tsx:24-27 | the decomposition is the only one with fields in range that adds up that way |
| HomePage.Tick | src/app/pages/guest/Home.tsx:18-29 | a positive difference is shown decomposed; otherwise the countdown keeps its values |
| HomePage.RunPastWeddingKeeps | src/app/pages/guest/Home.tsx:7-29 | after the wedding has begun nothing changes; a countdown that never saw the wedding ahead stays at zero |
| HomePage.RunShowsLastPositive | src/app/pages/guest/Home.tsx:18-29 | the last positive difference decides what is shown |

## Left out

- Supabase, promises and thrown errors: the tables are in-memory sequences. A failing backend call is a `fault` flag, and a `catch` is the branch that flag selects.
- Guest, Wish and Admin primary keys: these tables exist before `prisma/push-schema.ts` adds columns to them. The model assumes an `id` primary key on each, which the database fills when an insert leaves it out.
- The Admin table's own constraints are not in the repository. The model takes `Admin.username` as unique, because `prisma/seed.ts:10-11` upserts on it and Prisma accepts only a unique field there.
- `AdminApi.EventsOf`: the embedded `Event (...)` relation comes back in no specified order, and neither query of `src/lib/api/admin.ts` orders it. The model reads it in table order, so when a wedding has two events of one type, the event that `AdminApi.EventDataTakesFirstOfEachType`, `AdminApi.GetPublicEventData` and `AdminApi.GetEventDataReadsWeddingWithSlug` name is one possible answer, not the guaranteed one.
- bcrypt (`hashPassword`, `comparePassword`): the hash is a parameter and the comparison a function parameter, which answers either a verdict or an exception with its message.
- `btoa(JSON.stringify(payload))` and `JSON.parse(atob(...))`: replaced by a length-prefixed text encoding with a proved round trip and injectivity. Base64 and JSON themselves are not modelled, except that `btoa` throws on a character above U+00FF. The message of that exception is a parameter.
- `crypto.randomUUID` and `Math.random`: the native UUID and the 31 random nibbles are parameters.
- `Uuid.GenerateUUID`: a native UUID is returned as given and not checked against the validator.
- `Date.now()`, `new Date`, `toISOString`, `toLocaleString` and `getTime`: instants are integers in milliseconds, and the locale formatter of the CSV is a function parameter. `createUser`'s `toISOString` failure is an absent event date.
- `toLowerCase` covers ASCII letters only; other letters are kept as they are.
- Floating point: `Math.floor` over JavaScript numbers is integer division. Width and height of Cloudinary options are integers.
- `localStorage` (auth token storage and the wish book): a field or parameter for the stored value. `getAuthToken`, `saveAuthToken` and `removeAuthToken` are plain I/O.
- The network side of `uploadImage` and `deleteImage`: only their results per response are modelled. `uploadMultipleImages` (a `Promise.all` over uploads) is not modelled.
- Ties in sorts: Postgres gives no order among rows with equal sort keys, and the model does not state one.
- `getAllUsers`, `getUserById`, `updateUser`, `updateUserPassword`, `getWeddingData`, `getAdminByUsername` and `getActiveUserWeddingSlug` of `src/lib/api/multi-tenant.ts`: outside the modelled core.
- `submitRSVP`, `submitWish` and `deleteWish` of `src/lib/api/admin.ts` write the same rows as the multi-tenant functions of that name, and are modelled by them.
- JSX rendering, animations, toasts, navigation, confirmation dialogs (an input here), timers and the drag-and-drop widget (any reordering).
- `src/app/pages/admin/AdminDashboard.tsx` percentages (floating point), `AdminLogin.tsx`, the layouts, routes, hooks, `GalleryManagement.tsx` and the static guest pages.
- `Schema.MenuConfigPatch`, `Schema.EventPatch`: `updateMenuConfig` and `updateEvent` take a `Partial` row, which may also carry `id`, `weddingId`, `createdAt` or `updatedAt`. The patches hold only the data columns, so a key change and the constraint error it may cause are not modelled.
- A corrected `createUser` is not modelled on its own. Its menu-config step is the same call as in `createWedding`, whose corrected form is `TenantApi.CreateWeddingWithKey`.
- `EventPage.HandleSubmit`, `RsvpPage.HandleSubmit`: the `saving`/`submitting` spinners are not modelled.

## Findings

| source | as written | input that shows it | evidently intended | confidence | as-written member | corrected member |
|---|---|---|---|---|---|---|
| src/lib/api/multi-tenant.ts:558-568 | the MenuConfig insert names neither `id` nor `updatedAt`, which `prisma/push-schema.ts` declares NOT NULL without a DEFAULT | `createWedding` for a free slug and an existing owner: the wedding is stored, its default menu config is refused | every new wedding gets its default menu config under a generated key | not executed | TenantApi.CreateWeddingLeavesNoMenuConfig | TenantApi.CreateWeddingWithKeySetsUpMenuConfig |
| src/lib/api/multi-tenant.ts:631-643 | the Event insert names neither `id` nor `updatedAt` | any `createEvent` call, even for an existing wedding | the event is stored under a generated key and listed for its wedding | not executed | TenantApi.CreateEvent | TenantApi.CreatedEventIsListed |
| src/lib/api/multi-tenant.ts:717-724 | the Gallery insert does not name `id` | any `createGalleryPhoto` call, even for an existing wedding | the photo is stored under a generated key and listed for its wedding | not executed | TenantApi.CreateGalleryPhoto | TenantApi.CreatedPhotoIsListed |
