/** The wish moderation page of src/app/pages/admin/WishesManagement.tsx
    without its rendering: it reads and rewrites the same stored list as the
    guest book, with deletion and search. */
module WishesAdminPage {

  import opened Seqs
  import opened Strings
  import opened WishesPage

  /** The stored list (under "wishes"), the list shown and the search text. */
  datatype WishesAdminState = WishesAdminState(stored: seq<LocalWish>, wishes: seq<LocalWish>, searchQuery: string)

  /** `loadWishes`: the stored wishes, newest first. */
  function LoadWishes(st: WishesAdminState): (r: WishesAdminState)
    ensures r.stored == st.stored && r.searchQuery == st.searchQuery
    ensures SortedDescBy(r.wishes, WishTime) && multiset(r.wishes) == multiset(st.stored)
  {
    st.(wishes := NewestFirst(st.stored))
  }

  function OtherId(id: string): LocalWish -> bool {
    (w: LocalWish) => w.id != id
  }

  /** `handleDelete(id)`; `confirmed` is the answer to the confirmation dialog.
      A confirmed delete keeps, in order, the shown wishes with another id, and
      writes that same list back to storage. */
  function HandleDelete(st: WishesAdminState, id: string, confirmed: bool): (r: WishesAdminState)
    ensures !confirmed ==> r == st
    ensures confirmed ==> r.stored == r.wishes && r.searchQuery == st.searchQuery
    ensures confirmed ==> forall w :: w in r.wishes <==> w in st.wishes && w.id != id
  {
    if confirmed then
      var updated := Filter(st.wishes, OtherId(id));
      WishesAdminState(updated, updated, st.searchQuery)
    else st
  }

  /** Deleting keeps the others in their order, leaves the list as it was when
      no wish has that id, and deleting the same id again changes nothing more. */
  lemma DeleteKeepsOthers(st: WishesAdminState, id: string)
    ensures IsSubsequence(HandleDelete(st, id, true).wishes, st.wishes)
    ensures (forall w :: w in st.wishes ==> w.id != id) ==> HandleDelete(st, id, true).wishes == st.wishes
    ensures HandleDelete(HandleDelete(st, id, true), id, true) == HandleDelete(st, id, true)
  {
    FilterIsSubsequence(st.wishes, OtherId(id));
    if forall w :: w in st.wishes ==> w.id != id {
      FilterAll(st.wishes, OtherId(id));
    }
    FilterFilter(st.wishes, OtherId(id), OtherId(id), OtherId(id));
  }

  function WishMatches(query: string): LocalWish -> bool {
    (w: LocalWish) => IncludesIgnoringCase(w.name, query) || IncludesIgnoringCase(w.message, query)
  }

  /** `filteredWishes`: the shown wishes whose name or message contains the
      query, whatever the case. */
  function FilteredWishes(wishes: seq<LocalWish>, query: string): (r: seq<LocalWish>)
    ensures forall w :: w in r <==> w in wishes && (IncludesIgnoringCase(w.name, query) || IncludesIgnoringCase(w.message, query))
  {
    Filter(wishes, WishMatches(query))
  }

  /** The search keeps the order shown (so newest first after a load), and an
      empty query keeps every wish. */
  lemma FilteredWishesKeepOrder(wishes: seq<LocalWish>, query: string)
    ensures IsSubsequence(FilteredWishes(wishes, query), wishes)
    ensures SortedDescBy(wishes, WishTime) ==> SortedDescBy(FilteredWishes(wishes, query), WishTime)
    ensures query == "" ==> FilteredWishes(wishes, query) == wishes
  {
    FilterIsSubsequence(wishes, WishMatches(query));
    if SortedDescBy(wishes, WishTime) {
      FilterSortedDesc(wishes, WishMatches(query), WishTime);
    }
    if query == "" {
      forall w | w in wishes ensures WishMatches(query)(w) {
        EmptyQueryMatches(w.name);
      }
      FilterAll(wishes, WishMatches(query));
    }
  }
}
