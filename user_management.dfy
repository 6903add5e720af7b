/** The user administration page of src/app/pages/admin/UserManagement.tsx
    without its rendering: the creation form and its gate in front of
    `createUser`, and the search over the loaded users. */
module UserPage {

  import opened Basics
  import opened Seqs
  import opened Strings
  import opened Schema
  import TenantApi

  /** The `newUser` form. */
  datatype NewUserForm = NewUserForm(name: string, email: string, password: string)

  const EmptyForm := NewUserForm("", "", "")

  /** The part of the page state the handlers read and change. */
  datatype UserPageState = UserPageState(users: seq<User>, newUser: NewUserForm, showCreateModal: bool,
                                         searchQuery: string)

  /** The object handed to `createUser`: the three fields and nothing else, so
      no `setupWedding`, slug or date. */
  function CreateInput(f: NewUserForm): (data: TenantApi.CreateUserInput)
    ensures data.name == f.name && data.email == f.email && data.password == f.password
    ensures !TenantApi.WantsWedding(data)
  {
    TenantApi.CreateUserInput(f.email, f.password, f.name, None, None, None)
  }

  /** The gate of `handleCreateUser`: `createUser` is called only when no field
      is empty. Fields are not trimmed, so a name of spaces is let through. */
  function CreateCall(f: NewUserForm): (call: Option<TenantApi.CreateUserInput>)
    ensures call.None? <==> f.name == "" || f.email == "" || f.password == ""
    ensures call.Some? ==> call.value == CreateInput(f)
  {
    if f.name == "" || f.email == "" || f.password == "" then None else Some(CreateInput(f))
  }

  /** `handleCreateUser`: `result` is the answer of `createUser` (`None` when it
      threw) and `reloaded` what the following `loadUsers` lists. A success resets
      the form, closes the modal and shows the reloaded users; anything else
      leaves the page as it was. */
  function HandleCreateUser(st: UserPageState, result: Option<TenantApi.CreateUserResult>, reloaded: seq<User>)
    : (r: UserPageState)
    ensures r.searchQuery == st.searchQuery
    ensures CreateCall(st.newUser).None? ==> r == st
    ensures CreateCall(st.newUser).Some? && result.Some? && result.value.success ==>
              r.newUser == EmptyForm && !r.showCreateModal && r.users == reloaded
    ensures !(result.Some? && result.value.success) ==> r == st
  {
    if CreateCall(st.newUser).None? then st
    else if result.Some? && result.value.success then
      st.(newUser := EmptyForm, showCreateModal := false, users := reloaded)
    else st
  }

  /** A user created from this page gets no wedding, menu config or events: the
      tables for those are exactly as before and no wedding id comes back. */
  lemma CreatedUserGetsNoWedding(s: DbState, f: NewUserForm, ids: TenantApi.CreateUserIds, hashedPassword: string,
                                 now: int, eventDate: Option<string>, faults: TenantApi.CreateUserFaults)
    requires CreateCall(f).Some?
    ensures var (t, r) := TenantApi.CreateUserSpec(s, CreateCall(f).value, ids, hashedPassword, now, eventDate, faults);
      t.weddings == s.weddings && t.menuConfigs == s.menuConfigs && t.events == s.events && r.weddingId == None
  {
    TenantApi.CreateUserWithoutSetupWritesNoWedding(s, CreateCall(f).value, ids, hashedPassword, now, eventDate, faults);
  }

  // ---- filteredUsers ----

  function UserMatches(query: string): User -> bool {
    (u: User) => IncludesIgnoringCase(u.name, query) || IncludesIgnoringCase(u.email, query)
  }

  /** `filteredUsers`: the users whose name or email contains the query, whatever the case. */
  function FilteredUsers(users: seq<User>, query: string): (r: seq<User>)
    ensures forall u :: u in r <==> u in users && (IncludesIgnoringCase(u.name, query) || IncludesIgnoringCase(u.email, query))
  {
    Filter(users, UserMatches(query))
  }

  /** The search keeps the loaded order, and an empty query keeps every user. */
  lemma FilteredUsersKeepsOrder(users: seq<User>, query: string)
    ensures IsSubsequence(FilteredUsers(users, query), users)
    ensures query == "" ==> FilteredUsers(users, query) == users
  {
    FilterIsSubsequence(users, UserMatches(query));
    if query == "" {
      forall u | u in users ensures UserMatches(query)(u) {
        EmptyQueryMatches(u.name);
      }
      FilterAll(users, UserMatches(query));
    }
  }
}
