/** The global admin layer of src/lib/api/admin.ts, over the same tables as
    the multi-tenant layer. Its `submitRSVP`, `submitWish` and `deleteWish`
    write the same rows as the multi-tenant ones and are modelled there. */
module AdminApi {

  import opened Basics
  import opened Seqs
  import opened Strings
  import opened Schema
  import opened TenantApi
  import opened Auth

  const Attending := "hadir"
  const NotAttending := "tidak-hadir"
  const Uncertain := "belum-pasti"

  /** The slug used when the caller gives none. */
  const DefaultSlug := "sarah-michael"

  // ---- dashboard ----

  datatype DashboardStats = DashboardStats(totalGuests: nat, attending: nat, notAttending: nat,
                                           uncertain: nat, totalWishes: nat)

  const ZeroStats := DashboardStats(0, 0, 0, 0, 0)

  function AttendanceIs(code: string): Guest -> bool {
    (g: Guest) => g.attendance == code
  }

  /** `getDashboardStats()`. `guestsFault` is a failing guest query (all-zero
      stats); `wishCountFault` a failing count query, whose error is ignored and
      whose null count becomes 0. Every guest and wish is counted, whatever its wedding. */
  function GetDashboardStats(s: DbState, guestsFault: bool, wishCountFault: bool): (r: DashboardStats)
    ensures guestsFault ==> r == ZeroStats
    ensures !guestsFault ==> r.totalGuests == |s.guests|
    ensures !guestsFault ==> r.totalWishes == if wishCountFault then 0 else |s.wishes|
  {
    if guestsFault then ZeroStats
    else DashboardStats(|s.guests|, Count(s.guests, AttendanceIs(Attending)),
                        Count(s.guests, AttendanceIs(NotAttending)), Count(s.guests, AttendanceIs(Uncertain)),
                        if wishCountFault then 0 else |s.wishes|)
  }

  /** The three status counts never exceed the number of guests, and add up to
      it when every guest answered with one of the three codes. */
  lemma {:induction false} StatusCountsAtMostTotal(gs: seq<Guest>)
    ensures Count(gs, AttendanceIs(Attending)) + Count(gs, AttendanceIs(NotAttending))
            + Count(gs, AttendanceIs(Uncertain)) <= |gs|
    ensures (forall g :: g in gs ==> g.attendance == Attending || g.attendance == NotAttending || g.attendance == Uncertain)
            ==> Count(gs, AttendanceIs(Attending)) + Count(gs, AttendanceIs(NotAttending))
                + Count(gs, AttendanceIs(Uncertain)) == |gs|
    decreases |gs|
  {
    if gs != [] {
      StatusCountsAtMostTotal(gs[1..]);
      assert gs[0] in gs;
      assert forall g :: g in gs[1..] ==> g in gs;
    }
  }

  lemma DashboardStatsAddUp(s: DbState, wishCountFault: bool)
    ensures var r := GetDashboardStats(s, false, wishCountFault);
      && r.attending + r.notAttending + r.uncertain <= r.totalGuests
      && ((forall g :: g in s.guests ==> g.attendance == Attending || g.attendance == NotAttending || g.attendance == Uncertain)
          ==> r.attending + r.notAttending + r.uncertain == r.totalGuests)
  {
    StatusCountsAtMostTotal(s.guests);
  }

  /** A stored RSVP raises the total by one and its own status counter by one,
      for a guest of any wedding. */
  lemma StoredRsvpRaisesStats(s: DbState, g: Guest, wishCountFault: bool)
    ensures var before := GetDashboardStats(s, false, wishCountFault);
      var after := GetDashboardStats(s.(guests := s.guests + [g]), false, wishCountFault);
      && after.totalGuests == before.totalGuests + 1
      && after.attending == before.attending + (if g.attendance == Attending then 1 else 0)
      && after.notAttending == before.notAttending + (if g.attendance == NotAttending then 1 else 0)
      && after.uncertain == before.uncertain + (if g.attendance == Uncertain then 1 else 0)
      && after.totalWishes == before.totalWishes
  {
    FilterAppend(s.guests, [g], AttendanceIs(Attending));
    FilterAppend(s.guests, [g], AttendanceIs(NotAttending));
    FilterAppend(s.guests, [g], AttendanceIs(Uncertain));
  }

  // ---- guest and wish lists ----

  function NameContains(query: string): Guest -> bool {
    (g: Guest) => IncludesIgnoringCase(g.name, query)
  }

  /** A filter value that selects an attendance code: present, non-empty and not "all". */
  predicate FiltersAttendance(filter: Option<string>) {
    Truthy(filter) && filter.value != "all"
  }

  /** What `getGuests` keeps: with a non-empty query, names containing it
      whatever the case; with an attendance filter, exactly that code. */
  predicate GuestSelected(g: Guest, searchQuery: Option<string>, filter: Option<string>) {
    && (Truthy(searchQuery) ==> IncludesIgnoringCase(g.name, searchQuery.value))
    && (FiltersAttendance(filter) ==> g.attendance == filter.value)
  }

  function SelectedGuest(searchQuery: Option<string>, filter: Option<string>): Guest -> bool {
    (g: Guest) => GuestSelected(g, searchQuery, filter)
  }

  /** `getGuests(searchQuery, filter)`: all guests newest first, then the
      search filter, then the attendance filter; `[]` when the query fails. */
  function GetGuests(s: DbState, searchQuery: Option<string>, filter: Option<string>, fault: bool): (r: seq<Guest>)
    ensures fault ==> r == []
  {
    if fault then []
    else
      var guests := SortByDesc(s.guests, GuestCreatedAt);
      var guests := if Truthy(searchQuery) then Filter(guests, NameContains(searchQuery.value)) else guests;
      if FiltersAttendance(filter) then Filter(guests, AttendanceIs(filter.value)) else guests
  }

  /** The two successive filters are one filter by `GuestSelected` over the
      sorted guests: the result is a subsequence of all guests newest first,
      still newest first, holding exactly the selected guests. */
  lemma GetGuestsSelects(s: DbState, searchQuery: Option<string>, filter: Option<string>)
    ensures GetGuests(s, searchQuery, filter, false)
            == Filter(SortByDesc(s.guests, GuestCreatedAt), SelectedGuest(searchQuery, filter))
    ensures IsSubsequence(GetGuests(s, searchQuery, filter, false), SortByDesc(s.guests, GuestCreatedAt))
    ensures SortedDescBy(GetGuests(s, searchQuery, filter, false), GuestCreatedAt)
    ensures forall g :: g in GetGuests(s, searchQuery, filter, false) <==> g in s.guests && GuestSelected(g, searchQuery, filter)
  {
    var all := SortByDesc(s.guests, GuestCreatedAt);
    var sel := SelectedGuest(searchQuery, filter);
    if Truthy(searchQuery) && FiltersAttendance(filter) {
      FilterFilter(all, NameContains(searchQuery.value), AttendanceIs(filter.value), sel);
    } else if Truthy(searchQuery) {
      FilterSamePredicate(all, NameContains(searchQuery.value), sel);
    } else if FiltersAttendance(filter) {
      FilterSamePredicate(all, AttendanceIs(filter.value), sel);
    } else {
      FilterAll(all, sel);
    }
    FilterIsSubsequence(all, sel);
    FilterSortedDesc(all, sel, GuestCreatedAt);
    SortByMembers(s.guests, GuestCreatedAt);
  }

  /** Without a query and with filter absent or "all", every guest is listed. */
  lemma GetGuestsUnfilteredListsAll(s: DbState, searchQuery: Option<string>, filter: Option<string>)
    requires !Truthy(searchQuery) && !FiltersAttendance(filter)
    ensures GetGuests(s, searchQuery, filter, false) == SortByDesc(s.guests, GuestCreatedAt)
  {
  }

  function WishContains(query: string): Wish -> bool {
    (w: Wish) => IncludesIgnoringCase(w.name, query) || IncludesIgnoringCase(w.message, query)
  }

  /** `getWishes(searchQuery)`: all wishes newest first; with a non-empty query,
      those whose name or message contains it whatever the case. */
  function GetWishes(s: DbState, searchQuery: Option<string>, fault: bool): (r: seq<Wish>)
    ensures fault ==> r == []
    ensures SortedDescBy(r, WishCreatedAt)
    ensures !fault ==> IsSubsequence(r, SortByDesc(s.wishes, WishCreatedAt))
    ensures forall w :: w in r <==> (!fault && w in s.wishes
                                      && (Truthy(searchQuery) ==>
                                            IncludesIgnoringCase(w.name, searchQuery.value)
                                            || IncludesIgnoringCase(w.message, searchQuery.value)))
  {
    if fault then []
    else
      var wishes := SortByDesc(s.wishes, WishCreatedAt);
      SortByMembers(s.wishes, WishCreatedAt);
      if Truthy(searchQuery) then
        var q := searchQuery.value;
        FilterIsSubsequence(wishes, WishContains(q));
        FilterSortedDesc(wishes, WishContains(q), WishCreatedAt);
        Filter(wishes, WishContains(q))
      else
        assert forall w :: WishContains("")(w) by {
          forall w: Wish ensures WishContains("")(w) { EmptyQueryMatches(w.name); }
        }
        FilterAll(wishes, WishContains(""));
        FilterIsSubsequence(wishes, WishContains(""));
        wishes
  }

  /** An empty or absent search returns every wish. */
  lemma GetWishesWithoutQueryListsAll(s: DbState, searchQuery: Option<string>)
    requires !Truthy(searchQuery)
    ensures GetWishes(s, searchQuery, false) == SortByDesc(s.wishes, WishCreatedAt)
  {
  }

  // ---- event details ----

  /** `getEventData` / `getPublicEventData` results. */
  datatype EventData = EventData(coupleName: string, weddingDate: string,
                                 akadTime: string, akadLocation: string, akadAddress: string,
                                 resepsiTime: string, resepsiLocation: string, resepsiAddress: string)

  /** `events.find((e) => e.type === t)`, as an index. */
  function FindType(es: seq<Event>, t: string): (r: Option<nat>)
    ensures r.Some? ==> r.value < |es| && es[r.value].eventType == t
                        && forall j :: 0 <= j < r.value ==> es[j].eventType != t
    ensures r.None? ==> forall j :: 0 <= j < |es| ==> es[j].eventType != t
    decreases |es|
  {
    if es == [] then None
    else if es[0].eventType == t then Some(0)
    else match FindType(es[1..], t)
      case None => None
      case Some(k) => Some(k + 1)
  }

  function EventOfType(es: seq<Event>, t: string): Option<Event> {
    match FindType(es, t)
    case None => None
    case Some(i) => Some(es[i])
  }

  /** Shapes the wedding and its embedded events: the akad and resepsi fields
      come from the first event of each type, `""` when there is none. */
  function EventDataOf(w: Wedding, es: seq<Event>): EventData {
    var akad := EventOfType(es, "akad");
    var resepsi := EventOfType(es, "resepsi");
    EventData(w.coupleName, w.weddingDate,
              if akad.Some? then akad.value.time else "",
              if akad.Some? then akad.value.location else "",
              if akad.Some? then akad.value.address else "",
              if resepsi.Some? then resepsi.value.time else "",
              if resepsi.Some? then resepsi.value.location else "",
              if resepsi.Some? then resepsi.value.address else "")
  }

  /** The shaped fields in terms of positions in the event list. */
  lemma EventDataTakesFirstOfEachType(w: Wedding, es: seq<Event>)
    ensures var d := EventDataOf(w, es);
      && d.coupleName == w.coupleName && d.weddingDate == w.weddingDate
      && ((forall j :: 0 <= j < |es| ==> es[j].eventType != "akad")
          ==> d.akadTime == "" && d.akadLocation == "" && d.akadAddress == "")
      && ((forall j :: 0 <= j < |es| ==> es[j].eventType != "resepsi")
          ==> d.resepsiTime == "" && d.resepsiLocation == "" && d.resepsiAddress == "")
      && (forall i :: (0 <= i < |es| && es[i].eventType == "akad" && (forall j :: 0 <= j < i ==> es[j].eventType != "akad"))
                        ==> d.akadTime == es[i].time && d.akadLocation == es[i].location && d.akadAddress == es[i].address)
      && (forall i :: (0 <= i < |es| && es[i].eventType == "resepsi" && (forall j :: 0 <= j < i ==> es[j].eventType != "resepsi"))
                        ==> d.resepsiTime == es[i].time && d.resepsiLocation == es[i].location && d.resepsiAddress == es[i].address)
  {
    FirstIndexUnique(es, "akad");
    FirstIndexUnique(es, "resepsi");
  }

  lemma FirstIndexUnique(es: seq<Event>, t: string)
    ensures forall i :: 0 <= i < |es| && es[i].eventType == t && (forall j :: 0 <= j < i ==> es[j].eventType != t)
                        ==> FindType(es, t) == Some(i)
  {
    forall i | 0 <= i < |es| && es[i].eventType == t && (forall j :: 0 <= j < i ==> es[j].eventType != t)
      ensures FindType(es, t) == Some(i)
    {
      var r := FindType(es, t);
      assert r.Some?;
      assert !(r.value < i);
      assert !(i < r.value);
    }
  }

  function EventOfWedding(weddingId: string): Event -> bool {
    (e: Event) => e.weddingId == weddingId
  }

  /** The embedded `Event (...)` relation: every event of the wedding, active or not, in table order. */
  function EventsOf(s: DbState, weddingId: string): seq<Event> {
    Filter(s.events, EventOfWedding(weddingId))
  }

  /** `getPublicEventData()`: the earliest created active wedding with its events;
      `null` when there is none or the query fails otherwise. */
  function GetPublicEventData(s: DbState, fault: bool): (r: Option<EventData>)
    ensures r.Some? <==> !fault && exists w :: w in s.weddings && w.isActive
    ensures r.Some? ==> exists w :: w in s.weddings && w.isActive
                          && (forall v :: v in s.weddings && v.isActive ==> w.createdAt <= v.createdAt)
                          && r.value == EventDataOf(w, EventsOf(s, w.id))
  {
    if fault then None
    else match FirstActiveWedding(s)
      case None => None
      case Some(w) => Some(EventDataOf(w, EventsOf(s, w.id)))
  }

  function WithSlug(slug: string): Wedding -> bool {
    (w: Wedding) => w.slug == slug
  }

  /** `.eq("slug", slug).single()`, active or not. */
  function WeddingBySlug(s: DbState, slug: string): (r: Option<Wedding>)
    ensures r.Some? ==> r.value in s.weddings && r.value.slug == slug
  {
    SingleRow(Filter(s.weddings, WithSlug(slug)))
  }

  /** With the unique index on `slug`, the lookup finds exactly the wedding with that slug. */
  lemma WeddingBySlugFinds(s: DbState, slug: string, w: Wedding)
    requires Consistent(s)
    ensures WeddingBySlug(s, slug) == Some(w) <==> w in s.weddings && w.slug == slug
  {
    var f := Filter(s.weddings, WithSlug(slug));
    UniqueKeyMatchesAtMostOne(s.weddings, WeddingSlug, WithSlug(slug), slug);
    if w in s.weddings && w.slug == slug {
      assert w in f;
    }
  }

  lemma WeddingBySlugNone(s: DbState, slug: string)
    requires Consistent(s)
    ensures WeddingBySlug(s, slug).None? <==> forall w :: w in s.weddings ==> w.slug != slug
  {
    UniqueKeyMatchesAtMostOne(s.weddings, WeddingSlug, WithSlug(slug), slug);
    if exists w :: w in s.weddings && w.slug == slug {
      var w :| w in s.weddings && w.slug == slug;
      assert w in Filter(s.weddings, WithSlug(slug));
    }
  }

  /** `weddingSlug || firstWedding?.slug || "sarah-michael"`. */
  function ResolveSlug(weddingSlug: Option<string>, first: Option<Wedding>): (slug: string)
    ensures Truthy(weddingSlug) ==> slug == weddingSlug.value
    ensures !Truthy(weddingSlug) && first.Some? && first.value.slug != "" ==> slug == first.value.slug
    ensures !Truthy(weddingSlug) && (first.None? || first.value.slug == "") ==> slug == DefaultSlug
  {
    if Truthy(weddingSlug) then weddingSlug.value
    else if first.Some? && first.value.slug != "" then first.value.slug
    else DefaultSlug
  }

  /** `getEventData(weddingSlug)`. The first query's error is ignored
      (`firstFault` leaves `firstWedding` null); `fault` is an error of the
      second query other than "no row". */
  function GetEventData(s: DbState, weddingSlug: Option<string>, firstFault: bool, fault: bool): (r: Option<EventData>)
    ensures fault ==> r == None
  {
    var first := if firstFault then None else FirstActiveWedding(s);
    if fault then None
    else match WeddingBySlug(s, ResolveSlug(weddingSlug, first))
      case None => None
      case Some(w) => Some(EventDataOf(w, EventsOf(s, w.id)))
  }

  /** The wedding with the resolved slug is read whether or not it is active;
      with no such wedding the result is null. */
  lemma GetEventDataReadsWeddingWithSlug(s: DbState, weddingSlug: Option<string>, firstFault: bool)
    requires Consistent(s)
    ensures var slug := ResolveSlug(weddingSlug, if firstFault then None else FirstActiveWedding(s));
      && (forall w :: w in s.weddings && w.slug == slug ==>
            GetEventData(s, weddingSlug, firstFault, false) == Some(EventDataOf(w, EventsOf(s, w.id))))
      && ((forall w :: w in s.weddings ==> w.slug != slug) ==> GetEventData(s, weddingSlug, firstFault, false) == None)
  {
    var slug := ResolveSlug(weddingSlug, if firstFault then None else FirstActiveWedding(s));
    forall w | w in s.weddings && w.slug == slug
      ensures GetEventData(s, weddingSlug, firstFault, false) == Some(EventDataOf(w, EventsOf(s, w.id)))
    {
      WeddingBySlugFinds(s, slug, w);
    }
    WeddingBySlugNone(s, slug);
  }

  /** Without a slug, the earliest created active wedding is the one read. */
  lemma GetEventDataDefaultsToFirstActive(s: DbState, w: Wedding)
    requires Consistent(s) && FirstActiveWedding(s) == Some(w) && w.slug != ""
    ensures GetEventData(s, None, false, false) == Some(EventDataOf(w, EventsOf(s, w.id)))
  {
    WeddingBySlugFinds(s, w.slug, w);
  }

  // ---- updateEventData ----

  /** The fields of `EventData` that `updateEventData` writes; an absent
      (undefined) field is left out of the UPDATE and keeps its value. */
  datatype EventDataInput = EventDataInput(coupleName: Option<string>, weddingDate: Option<string>,
                                           akadTime: Option<string>, akadLocation: Option<string>,
                                           akadAddress: Option<string>, resepsiTime: Option<string>,
                                           resepsiLocation: Option<string>, resepsiAddress: Option<string>)

  function AkadPatch(d: EventDataInput): EventPatch {
    EventPatch(None, d.weddingDate, d.akadTime, d.akadLocation, d.akadAddress, None, None, None, None)
  }

  function ResepsiPatch(d: EventDataInput): EventPatch {
    EventPatch(None, d.weddingDate, d.resepsiTime, d.resepsiLocation, d.resepsiAddress, None, None, None, None)
  }

  /** What the loop does to one event row of the wedding. */
  function RewriteEvent(e: Event, d: EventDataInput): (r: Event)
    ensures r.id == e.id && r.weddingId == e.weddingId && r.eventType == e.eventType
  {
    if e.eventType == "akad" then PatchEvent(e, AkadPatch(d))
    else if e.eventType == "resepsi" then PatchEvent(e, ResepsiPatch(d))
    else e
  }

  /** The event table after the loop: every event of the wedding whose own
      UPDATE did not fail is rewritten. */
  function RewrittenEvents(es: seq<Event>, weddingId: string, d: EventDataInput, eventFaults: set<string>): (r: seq<Event>)
    ensures |r| == |es|
    ensures forall j :: 0 <= j < |es| ==>
              r[j] == if es[j].weddingId == weddingId && es[j].id !in eventFaults then RewriteEvent(es[j], d) else es[j]
  {
    seq(|es|, j requires 0 <= j < |es| =>
      if es[j].weddingId == weddingId && es[j].id !in eventFaults then RewriteEvent(es[j], d) else es[j])
  }

  /** `updateEventData(eventData, weddingSlug)` on state `s`: the new state and the result.
      `lookupFault` is an error of the slug lookup other than "no row"; the
      errors of the later statements are ignored by the code, so a failing
      wedding UPDATE (`weddingFault`), a failing event fetch (`fetchFault`) or
      a failing event UPDATE (id in `eventFaults`) only skips that write. */
  function UpdateEventDataSpec(s: DbState, d: EventDataInput, weddingSlug: Option<string>, lookupFault: bool,
                               weddingFault: bool, fetchFault: bool, eventFaults: set<string>): (DbState, bool)
  {
    var slug := if Truthy(weddingSlug) then weddingSlug.value else DefaultSlug;
    if lookupFault then (s, false)
    else match WeddingBySlug(s, slug)
      case None => (s, false)
      case Some(w) =>
        var ws := if weddingFault then s.weddings
                  else UpdateWeddingRows(s.weddings, w.id, DetailsPatch(d.coupleName, d.weddingDate));
        var es := if fetchFault then s.events else RewrittenEvents(s.events, w.id, d, eventFaults);
        (s.(weddings := ws, events := es), true)
  }

  function IdsOf(es: seq<Event>): set<string> {
    set e | e in es :: e.id
  }

  lemma IdsOfAppend(es: seq<Event>, e: Event)
    ensures IdsOf(es + [e]) == IdsOf(es) + {e.id}
  {
    forall id | id in IdsOf(es + [e]) ensures id in IdsOf(es) + {e.id} {
      var x :| x in es + [e] && x.id == id;
      if x != e { assert x in es; }
    }
    forall id | id in IdsOf(es) + {e.id} ensures id in IdsOf(es + [e]) {
      if id == e.id {
        assert e in es + [e];
      } else {
        var x :| x in es && x.id == id;
        assert x in es + [e];
      }
    }
  }

  /** Row `e` of the original table once the events with ids in `done` have been processed. */
  function Expected(e: Event, done: set<string>, weddingId: string, d: EventDataInput, eventFaults: set<string>): (r: Event)
    ensures r.id == e.id && r.eventType == e.eventType
  {
    if e.weddingId == weddingId && e.id in done && e.id !in eventFaults then RewriteEvent(e, d) else e
  }

  ghost predicate ProcessedRows(rows: seq<Event>, e0: seq<Event>, done: set<string>, weddingId: string,
                                d: EventDataInput, eventFaults: set<string>) {
    |rows| == |e0| && forall j :: 0 <= j < |e0| ==> rows[j] == Expected(e0[j], done, weddingId, d, eventFaults)
  }

  /** The event table after the loop body for fetched event `e`. */
  function StepRows(rows: seq<Event>, e: Event, d: EventDataInput, eventFaults: set<string>): seq<Event> {
    if e.id in eventFaults then rows
    else if e.eventType == "akad" then UpdateEventRows(rows, e.id, AkadPatch(d))
    else if e.eventType == "resepsi" then UpdateEventRows(rows, e.id, ResepsiPatch(d))
    else rows
  }

  method UpdateEventData(db: Database, d: EventDataInput, weddingSlug: Option<string>, lookupFault: bool,
                         weddingFault: bool, fetchFault: bool, eventFaults: set<string>) returns (success: bool)
    requires db.Valid()
    modifies db
    ensures db.Valid()
    ensures (db.State(), success)
            == UpdateEventDataSpec(old(db.State()), d, weddingSlug, lookupFault, weddingFault, fetchFault, eventFaults)
  {
    var slug := if Truthy(weddingSlug) then weddingSlug.value else DefaultSlug;
    if lookupFault {
      return false;
    }
    var wedding := WeddingBySlug(db.State(), slug);
    if wedding.None? {
      return false;
    }
    var weddingId := wedding.value.id;
    var _ := db.UpdateWedding(weddingId, DetailsPatch(d.coupleName, d.weddingDate), weddingFault);
    if !fetchFault {
      RewriteWeddingEvents(db, weddingId, d, eventFaults);
    }
    return true;
  }

  /** The `for (const event of events)` loop over the fetched events of the wedding. */
  method RewriteWeddingEvents(db: Database, weddingId: string, d: EventDataInput, eventFaults: set<string>)
    requires db.Valid()
    modifies db
    ensures db.Valid()
    ensures db.State() == old(db.State()).(events := RewrittenEvents(old(db.events), weddingId, d, eventFaults))
  {
    var e0 := db.events;
    var evs := Filter(e0, EventOfWedding(weddingId));
    UniqueByFilter(e0, EventOfWedding(weddingId), EventKey);
    var i := 0;
    while i < |evs|
      invariant 0 <= i <= |evs|
      invariant db.Valid()
      invariant db.State() == old(db.State()).(events := db.events)
      invariant ProcessedRows(db.events, e0, IdsOf(evs[..i]), weddingId, d, eventFaults)
    {
      ghost var cur := db.events;
      SyncFetchedEvent(db, evs[i], d, eventFaults);
      RewriteStep(e0, evs, i, weddingId, d, eventFaults, cur);
      i := i + 1;
    }
    LoopCoversWedding(e0, evs, weddingId, d, eventFaults, db.events);
  }

  /** The body of the loop for one fetched event; a failing UPDATE is ignored. */
  method SyncFetchedEvent(db: Database, e: Event, d: EventDataInput, eventFaults: set<string>)
    requires db.Valid()
    modifies db
    ensures db.Valid()
    ensures db.State() == old(db.State()).(events := StepRows(old(db.events), e, d, eventFaults))
  {
    if e.eventType == "akad" {
      var _ := db.UpdateEvent(e.id, AkadPatch(d), e.id in eventFaults);
    } else if e.eventType == "resepsi" {
      var _ := db.UpdateEvent(e.id, ResepsiPatch(d), e.id in eventFaults);
    }
  }

  /** After the last iteration every event of the wedding has been reached. */
  lemma LoopCoversWedding(e0: seq<Event>, evs: seq<Event>, weddingId: string, d: EventDataInput,
                          eventFaults: set<string>, rows: seq<Event>)
    requires evs == Filter(e0, EventOfWedding(weddingId))
    requires ProcessedRows(rows, e0, IdsOf(evs[..|evs|]), weddingId, d, eventFaults)
    ensures rows == RewrittenEvents(e0, weddingId, d, eventFaults)
  {
    assert evs[..|evs|] == evs;
    forall j | 0 <= j < |e0| && e0[j].weddingId == weddingId ensures e0[j].id in IdsOf(evs) {
      assert e0[j] in evs;
    }
  }

  /** Earlier fetched events have other ids than `evs[i]`. */
  lemma NotYetReached(evs: seq<Event>, i: nat)
    requires UniqueBy(evs, EventKey) && i < |evs|
    ensures evs[i].id !in IdsOf(evs[..i])
  {
    forall x | x in evs[..i] ensures x.id != evs[i].id {
      var k :| 0 <= k < i && evs[..i][k] == x;
      assert evs[k] == x;
      assert EventKey(evs[k]) != EventKey(evs[i]);
    }
  }

  /** By the primary key, the only row with `e`'s id is `e` itself. */
  lemma OnlyRowWithId(e0: seq<Event>, e: Event)
    requires UniqueBy(e0, EventKey) && e in e0
    ensures forall j :: 0 <= j < |e0| && e0[j].id == e.id ==> e0[j] == e
  {
    var m :| 0 <= m < |e0| && e0[m] == e;
    forall j | 0 <= j < |e0| && e0[j].id == e.id ensures e0[j] == e {
      assert EventKey(e0[j]) == EventKey(e0[m]);
    }
  }

  /** What the loop body does to one row. */
  lemma StepRowsRow(rows: seq<Event>, e: Event, d: EventDataInput, eventFaults: set<string>, j: nat)
    requires j < |rows| && (rows[j].id == e.id ==> rows[j].eventType == e.eventType)
    ensures |StepRows(rows, e, d, eventFaults)| == |rows|
    ensures StepRows(rows, e, d, eventFaults)[j]
            == if rows[j].id == e.id && e.id !in eventFaults then RewriteEvent(rows[j], d) else rows[j]
  {
  }

  /** The loop body for `e` moves row `j` from "processed up to `done`" to
      "processed up to `done` and `e`". */
  lemma StepOneRow(cur: seq<Event>, e0: seq<Event>, e: Event, done: set<string>, j: nat, weddingId: string,
                   d: EventDataInput, eventFaults: set<string>)
    requires |cur| == |e0| && j < |e0|
    requires cur[j] == Expected(e0[j], done, weddingId, d, eventFaults)
    requires e.id !in done && e.weddingId == weddingId
    requires e0[j].id == e.id ==> e0[j] == e
    ensures |StepRows(cur, e, d, eventFaults)| == |cur|
    ensures StepRows(cur, e, d, eventFaults)[j] == Expected(e0[j], done + {e.id}, weddingId, d, eventFaults)
  {
    if e0[j].id == e.id {
      assert cur[j] == e;
    }
    StepRowsRow(cur, e, d, eventFaults, j);
  }

  /** One iteration of the loop keeps `ProcessedRows`, with `evs[i]` now reached. */
  lemma RewriteStep(e0: seq<Event>, evs: seq<Event>, i: nat, weddingId: string, d: EventDataInput,
                    eventFaults: set<string>, cur: seq<Event>)
    requires UniqueBy(e0, EventKey) && evs == Filter(e0, EventOfWedding(weddingId)) && UniqueBy(evs, EventKey)
    requires i < |evs|
    requires ProcessedRows(cur, e0, IdsOf(evs[..i]), weddingId, d, eventFaults)
    ensures ProcessedRows(StepRows(cur, evs[i], d, eventFaults), e0, IdsOf(evs[..i + 1]), weddingId, d, eventFaults)
  {
    var e := evs[i];
    var done := IdsOf(evs[..i]);
    TakeOneMore(evs, i);
    IdsOfAppend(evs[..i], e);
    NotYetReached(evs, i);
    assert e in evs;
    OnlyRowWithId(e0, e);
    var next := StepRows(cur, e, d, eventFaults);
    StepRowsRow(cur, e, d, eventFaults, 0);
    forall j | 0 <= j < |e0| ensures next[j] == Expected(e0[j], done + {e.id}, weddingId, d, eventFaults) {
      StepOneRow(cur, e0, e, done, j, weddingId, d, eventFaults);
    }
  }

  /** `updateEventData` fails, changing nothing, exactly when the lookup fails
      or no wedding has the slug (default "sarah-michael"). */
  lemma UpdateEventDataNeedsWedding(s: DbState, d: EventDataInput, weddingSlug: Option<string>, lookupFault: bool,
                                    weddingFault: bool, fetchFault: bool, eventFaults: set<string>)
    requires Consistent(s)
    ensures var (t, ok) := UpdateEventDataSpec(s, d, weddingSlug, lookupFault, weddingFault, fetchFault, eventFaults);
      var slug := if Truthy(weddingSlug) then weddingSlug.value else DefaultSlug;
      && (!ok <==> lookupFault || forall w :: w in s.weddings ==> w.slug != slug)
      && (!ok ==> t == s)
  {
    var slug := if Truthy(weddingSlug) then weddingSlug.value else DefaultSlug;
    WeddingBySlugNone(s, slug);
  }

  /** On success without failing writes: the wedding with the slug gets the new
      couple name and date; each akad and resepsi event of that wedding gets the
      date and that type's time, location and address; every other event, and
      every table besides weddings and events, is unchanged. */
  lemma UpdateEventDataRewrites(s: DbState, d: EventDataInput, weddingSlug: Option<string>, w: Wedding)
    requires Consistent(s) && w in s.weddings && w.slug == (if Truthy(weddingSlug) then weddingSlug.value else DefaultSlug)
    ensures var (t, ok) := UpdateEventDataSpec(s, d, weddingSlug, false, false, false, {});
      && ok
      && |t.weddings| == |s.weddings| && |t.events| == |s.events|
      && (forall i :: 0 <= i < |s.weddings| && s.weddings[i].id == w.id ==>
            t.weddings[i] == s.weddings[i].(coupleName := d.coupleName.GetOr(s.weddings[i].coupleName),
                                            weddingDate := d.weddingDate.GetOr(s.weddings[i].weddingDate)))
      && (forall i :: 0 <= i < |s.weddings| && s.weddings[i].id != w.id ==> t.weddings[i] == s.weddings[i])
      && (forall j :: 0 <= j < |s.events| && s.events[j].weddingId == w.id && s.events[j].eventType == "akad" ==>
            var e := s.events[j];
            t.events[j] == e.(date := d.weddingDate.GetOr(e.date), time := d.akadTime.GetOr(e.time),
                              location := d.akadLocation.GetOr(e.location), address := d.akadAddress.GetOr(e.address)))
      && (forall j :: 0 <= j < |s.events| && s.events[j].weddingId == w.id && s.events[j].eventType == "resepsi" ==>
            var e := s.events[j];
            t.events[j] == e.(date := d.weddingDate.GetOr(e.date), time := d.resepsiTime.GetOr(e.time),
                              location := d.resepsiLocation.GetOr(e.location), address := d.resepsiAddress.GetOr(e.address)))
      && (forall j :: 0 <= j < |s.events| && (s.events[j].weddingId != w.id
                        || (s.events[j].eventType != "akad" && s.events[j].eventType != "resepsi")) ==>
            t.events[j] == s.events[j])
      && t.users == s.users && t.menuConfigs == s.menuConfigs && t.gallery == s.gallery
      && t.guests == s.guests && t.wishes == s.wishes && t.admins == s.admins
  {
    WeddingBySlugFinds(s, w.slug, w);
  }

  // ---- weddings dropdown ----

  datatype WeddingSummary = WeddingSummary(id: string, slug: string, coupleName: string)

  function Summary(w: Wedding): WeddingSummary {
    WeddingSummary(w.id, w.slug, w.coupleName)
  }

  /** The active weddings, newest first. */
  function ActiveWeddingsNewestFirst(s: DbState): (r: seq<Wedding>)
    ensures SortedDescBy(r, WeddingCreatedAt)
    ensures multiset(r) == multiset(Filter(s.weddings, IsActiveWedding))
    ensures forall w :: w in r <==> w in s.weddings && w.isActive
  {
    var active := Filter(s.weddings, IsActiveWedding);
    SortByMembers(active, WeddingCreatedAt);
    SortByDesc(active, WeddingCreatedAt)
  }

  /** `getAllWeddings()`: id, slug and couple name of every active wedding, newest first. */
  function GetAllWeddings(s: DbState, fault: bool): (r: seq<WeddingSummary>)
    ensures fault ==> r == []
    ensures !fault ==> |r| == |ActiveWeddingsNewestFirst(s)|
                       && forall i :: 0 <= i < |r| ==> r[i] == Summary(ActiveWeddingsNewestFirst(s)[i])
  {
    if fault then []
    else
      var ws := ActiveWeddingsNewestFirst(s);
      seq(|ws|, i requires 0 <= i < |ws| => Summary(ws[i]))
  }

  /** Exactly the active weddings are listed. */
  lemma GetAllWeddingsListsActive(s: DbState)
    ensures forall x :: x in GetAllWeddings(s, false) <==> exists w :: w in s.weddings && w.isActive && Summary(w) == x
  {
    var ws := ActiveWeddingsNewestFirst(s);
    var r := GetAllWeddings(s, false);
    forall x | x in r ensures exists w :: w in s.weddings && w.isActive && Summary(w) == x {
      var i :| 0 <= i < |r| && r[i] == x;
      assert ws[i] in ws;
    }
    forall w | w in s.weddings && w.isActive ensures Summary(w) in r {
      var i :| 0 <= i < |ws| && ws[i] == w;
      assert r[i] == Summary(w);
    }
  }

  // ---- login ----

  const UnknownUsername := "Username tidak ditemukan"
  const WrongPassword := "Password salah"

  datatype LoginResult = LoginResult(success: bool, token: Option<string>, error: Option<string>)

  /** What bcrypt's comparison answers: a verdict, or an exception with its message. */
  datatype Comparison = Compared(valid: bool) | Threw(message: string)

  function AdminNamed(username: string): Admin -> bool {
    (a: Admin) => a.username == username
  }

  /** The claims a successful login puts in the token. */
  function AdminClaims(a: Admin): TokenClaims {
    TokenClaims(a.id, a.username, Some(a.role))
  }

  /** `loginAdmin(username, password)` at time `now`. `comparePassword` stands
      for bcrypt's check of a password against a stored hash; `encodeError` is
      the message of the exception `btoa` throws; `fault` is a failing query.
      The lookup is `.single()`: no admin, or several, with the username is
      "unknown username" (in a consistent database there are never several,
      see `StoredAdminIsTheOnlyMatch`). An exception from
      the comparison or from `generateToken` ends in the catch branch, which
      reports the exception's message. */
  function LoginAdmin(s: DbState, username: string, password: string, comparePassword: (string, string) -> Comparison,
                      now: int, encodeError: string, fault: bool): (r: LoginResult)
    ensures r.success ==> r.error.None?
    ensures r.success ==> exists a :: (a in s.admins && a.username == username
                                       && comparePassword(password, a.password) == Compared(true)
                                       && r.token.Some? && r.token == GenerateToken(AdminClaims(a), now))
    ensures !r.success ==> r.token.None? && r.error.Some?
    ensures fault || (forall a :: a in s.admins ==> a.username != username) ==> r.error == Some(UnknownUsername)
    ensures r.error.Some? && r.error != Some(UnknownUsername) && r.error != Some(WrongPassword) ==>
      exists a :: (a in s.admins && a.username == username
                   && (comparePassword(password, a.password) == Threw(r.error.value)
                       || (comparePassword(password, a.password) == Compared(true)
                           && !Encodable(AdminClaims(a)) && r.error.value == encodeError)))
  {
    var admin := if fault then None else SingleRow(Filter(s.admins, AdminNamed(username)));
    if admin.None? then
      assert !fault ==> Filter(s.admins, AdminNamed(username)) != [] || admin.None?;
      LoginResult(false, None, Some(UnknownUsername))
    else
      assert admin.value in Filter(s.admins, AdminNamed(username));
      match comparePassword(password, admin.value.password)
      case Threw(message) => LoginResult(false, None, Some(message))
      case Compared(valid) =>
        if !valid then LoginResult(false, None, Some(WrongPassword))
        else match GenerateToken(AdminClaims(admin.value), now)
          case None => LoginResult(false, None, Some(encodeError))
          case Some(token) => LoginResult(true, Some(token), None)
  }

  /** With exactly one admin of that name, the password check and the token
      encoding alone decide: a mismatch gives "Password salah", an exception
      its own message, and a successful token verifies until it expires,
      carrying the admin's id, username and role. */
  lemma LoginWithOneAdmin(s: DbState, username: string, password: string, comparePassword: (string, string) -> Comparison,
                          now: int, encodeError: string, later: int, a: Admin)
    requires Filter(s.admins, AdminNamed(username)) == [a]
    ensures var r := LoginAdmin(s, username, password, comparePassword, now, encodeError, false);
      var c := comparePassword(password, a.password);
      && (r.success <==> c == Compared(true) && Encodable(AdminClaims(a)))
      && (c == Compared(false) ==> r.error == Some(WrongPassword))
      && (c.Threw? ==> r.error == Some(c.message))
      && (c == Compared(true) && !Encodable(AdminClaims(a)) ==> r.error == Some(encodeError))
      && (r.success && later <= now + TokenLifetime ==>
            VerifyToken(r.token.value, later) == Some(TokenPayload(Some(a.id), Some(username), Some(a.role), Some(now + TokenLifetime))))
  {
    assert a in Filter(s.admins, AdminNamed(username));
    if comparePassword(password, a.password) == Compared(true) && later <= now + TokenLifetime {
      VerifyGeneratedToken(AdminClaims(a), now, later);
    }
  }

  /** The `.single()` lookup on its own: were two admins to share a username,
      neither could log in with it. The unique username of a consistent
      database keeps that state from arising. */
  lemma DuplicateUsernameRefused(s: DbState, username: string, password: string, comparePassword: (string, string) -> Comparison,
                                 now: int, encodeError: string, i: nat, j: nat)
    requires i < j < |s.admins| && s.admins[i].username == username && s.admins[j].username == username
    ensures LoginAdmin(s, username, password, comparePassword, now, encodeError, false) == LoginResult(false, None, Some(UnknownUsername))
  {
    FilterKeepsTwo(s.admins, AdminNamed(username), i, j);
  }

  /** In a consistent database a stored admin is the only row the login's
      lookup matches, so `LoginWithOneAdmin` covers every stored username. */
  lemma StoredAdminIsTheOnlyMatch(s: DbState, username: string, a: Admin)
    requires Consistent(s) && a in s.admins && a.username == username
    ensures Filter(s.admins, AdminNamed(username)) == [a]
  {
    var r := Filter(s.admins, AdminNamed(username));
    UniqueKeyMatchesAtMostOne(s.admins, AdminUsername, AdminNamed(username), username);
    assert a in r;
    assert |r| == 1;
    assert r[0] == a;
  }
}
