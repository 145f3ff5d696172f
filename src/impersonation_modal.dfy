/** The development-only impersonation modal: it lists the users the
    server's `GET /api/users` returns, filters them by a search text, and
    switches the identity the client sends (or clears it). The keyboard
    shortcut and the modal's visibility are the `Modal` class; rendering and
    focus handling are left out. */
module ImpersonationModal {
  import opened Wrappers
  import opened Text
  import opened Seqs
  import ApiClient
  import GuestQueries
  import UserService
  import UserRepository
  import UserHandler

  type UserListItem = UserHandler.UserListItem

  /** `roleLabel`: the Portuguese label of a role; any role other than the
      couple's reads as a guest. */
  function RoleLabel(role: string): (text: string)
    ensures text == "Noivo" <==> role == UserService.RoleGroom
    ensures text == "Noiva" <==> role == UserService.RoleBride
    ensures text == "Convidado" <==> role != UserService.RoleGroom && role != UserService.RoleBride
  {
    if role == UserService.RoleGroom then "Noivo"
    else if role == UserService.RoleBride then "Noiva"
    else "Convidado"
  }

  /** The search text as the filter uses it: lower-cased, then trimmed. */
  function Query(search: string): string {
    JsTrim(ToLower(search))
  }

  /** The filter test: a blank query keeps everyone; otherwise the query
      inside the lower-cased identifier, role, role label or "first last". */
  predicate UserMatches(u: UserListItem, search: string) {
    var q := Query(search);
    || q == ""
    || Contains(ToLower(u.uracf), q)
    || Contains(ToLower(u.role), q)
    || Contains(ToLower(RoleLabel(u.role)), q)
    || Contains(ToLower(u.firstName + " " + u.lastName), q)
  }

  /** `filteredUsers`: the listed users that match, in list order. */
  function FilteredUsers(users: seq<UserListItem>, search: string): (r: seq<UserListItem>)
    ensures IsSubsequence(r, users)
    ensures forall u :: u in r <==> u in users && UserMatches(u, search)
  {
    Filter(users, (u: UserListItem) => UserMatches(u, search))
  }

  /** A search that is blank once lower-cased and trimmed lists everyone. */
  lemma BlankSearchKeepsAll(users: seq<UserListItem>, search: string)
    requires Query(search) == ""
    ensures FilteredUsers(users, search) == users
  {
    FilterAll(users, (u: UserListItem) => UserMatches(u, search));
  }

  /** The filter ignores the case of the search text. */
  lemma SearchIgnoresCase(u: UserListItem, search: string)
    ensures UserMatches(u, ToUpper(search)) == UserMatches(u, search)
  {
    LowerOfUpper(search);
  }

  /** The query of the search text "noiv" is "noiv". */
  lemma NoivQuery()
    ensures Query("noiv") == "noiv"
  {
    assert ToLower("noiv") == "noiv";
    TrimNoOp("noiv", IsJsSpace);
  }

  /** Searching for "noiv" finds the groom and the bride by their labels. */
  lemma CoupleFoundByLabel(u: UserListItem)
    requires u.role == UserService.RoleGroom || u.role == UserService.RoleBride
    ensures UserMatches(u, "noiv")
  {
    NoivQuery();
    var l := ToLower(RoleLabel(u.role));
    assert l[..4] == "noiv";
    assert "noiv" <= l;
  }

  /** "guest" does not contain "noiv". */
  lemma GuestRoleLacksNoiv()
    ensures !Contains(ToLower("guest"), "noiv")
  {
    assert ToLower("guest") == "guest";
    NoPairInside("guest", "noiv");
  }

  /** "Convidado" does not contain "noiv", in any case. */
  lemma GuestLabelLacksNoiv()
    ensures !Contains(ToLower("Convidado"), "noiv")
  {
    assert ToLower("Convidado") == "convidado";
    NoPairInside("convidado", "noiv");
  }

  /** Neither the guest role nor its label contains "noiv". */
  lemma GuestLabelsLackNoiv()
    ensures !Contains(ToLower(UserService.RoleGuest), "noiv")
    ensures !Contains(ToLower(RoleLabel(UserService.RoleGuest)), "noiv")
  {
    GuestRoleLacksNoiv();
    GuestLabelLacksNoiv();
    assert RoleLabel(UserService.RoleGuest) == "Convidado";
  }

  /** A guest is found by "noiv" only through their identifier or name. */
  lemma GuestNotFoundByLabel(u: UserListItem)
    requires u.role == UserService.RoleGuest
    ensures UserMatches(u, "noiv") <==>
      Contains(ToLower(u.uracf), "noiv") || Contains(ToLower(u.firstName + " " + u.lastName), "noiv")
  {
    NoivQuery();
    GuestLabelsLackNoiv();
  }

  /** A string in which the first two characters of `sub` never stand side
      by side does not contain `sub`. */
  lemma {:induction false} NoPairInside(s: string, sub: string)
    requires |sub| >= 2 && forall i | 0 <= i < |s| - 1 :: s[i] != sub[0] || s[i + 1] != sub[1]
    ensures !Contains(s, sub)
    decreases |s|
  {
    assert !(sub <= s) by {
      if |s| >= 2 {
        assert s[0] != sub[0] || s[1] != sub[1];
      }
    }
    if |s| > 0 {
      var t := s[1..];
      assert forall i | 0 <= i < |t| :: t[i] == s[i + 1];
      NoPairInside(t, sub);
    }
  }

  /** A user is found by their own identifier, in any case. */
  lemma FoundByIdentifier(users: seq<UserListItem>, u: UserListItem, search: string)
    requires u in users && UserService.IsUracf(u.uracf)
    requires ToLower(search) == ToLower(u.uracf)
    ensures u in FilteredUsers(users, search)
  {
    var q := ToLower(u.uracf);
    assert forall i | 0 <= i < |q| :: !IsJsSpace(q[i]);
    TrimNoOp(q, IsJsSpace);
    assert q <= q;
  }

  // ---------------------------------------------------------------------
  // Switching identity

  /** The `useUserMeQuery` keys all start with "user-me". */
  const UserMeFilter: GuestQueries.QueryKey := [GuestQueries.Str("user-me")]

  /** The modal's own state: whether it is open, whether the leave
      confirmation is showing, and the search text. */
  class Modal {
    var open: bool
    var confirmLeave: bool
    var search: string

    /** Closing the modal clears the search. */
    ghost predicate Valid()
      reads this
    {
      !open ==> search == ""
    }

    constructor ()
      ensures Valid() && !open && !confirmLeave && search == ""
    {
      open, confirmLeave, search := false, false, "";
    }

    /** The keyboard shortcut: opens or closes the modal. */
    method Toggle()
      requires Valid()
      modifies this
      ensures Valid() && open == !old(open) && confirmLeave == old(confirmLeave)
      ensures search == (if open then old(search) else "")
    {
      open := !open;
      if !open {
        search := "";
      }
    }

    /** Escape: closes the modal and the leave confirmation. */
    method Escape()
      requires Valid()
      modifies this
      ensures Valid() && !open && !confirmLeave && search == ""
    {
      open, confirmLeave, search := false, false, "";
    }

    /** Typing in the search box, which only shows while the modal is open. */
    method SetSearch(s: string)
      requires Valid() && open
      modifies this
      ensures Valid() && search == s && open && confirmLeave == old(confirmLeave)
    {
      search := s;
    }

    /** `handleImpersonate`: stores the user's identifier, marks every
      user-me query stale and closes the modal. */
    method Impersonate(store: ApiClient.IdentityStore, qc: GuestQueries.QueryClient, u: UserListItem)
      requires Valid()
      modifies this, store, qc
      ensures Valid() && !open && confirmLeave == old(confirmLeave)
      ensures store.stored == Some(ToUpper(u.uracf))
      ensures qc.cache == GuestQueries.Invalidate(old(qc.cache), UserMeFilter)
    {
      store.Set(u.uracf);
      qc.InvalidateQueries(UserMeFilter);
      open, search := false, "";
    }

    /** `handleExitConfirmed`: forgets the identity, empties every cached
      query and hides the confirmation. */
    method ExitConfirmed(store: ApiClient.IdentityStore, qc: GuestQueries.QueryClient)
      requires Valid()
      modifies this, store, qc
      ensures Valid() && open == old(open) && !confirmLeave
      ensures store.stored.None? && qc.cache == map[]
    {
      store.Clear();
      qc.Clear();
      confirmLeave := false;
    }
  }

  /** Impersonating a listed user makes the client send that user's own
      identifier, under which the server finds that same user. */
  lemma ImpersonationResolves(rows: seq<UserRepository.User>, u: UserRepository.User)
    requires u in rows && UserService.IsUracf(u.uracf)
    requires forall v | v in rows && v.uracf == u.uracf :: v == u
    ensures ApiClient.AuthHeaders(Some(ToUpper(u.uracf))) == Success(map[ApiClient.IdentityKey := u.uracf])
    ensures UserService.GetMeOutcome(rows, ToUpper(u.uracf)) == Success(u)
  {
    assert ToUpper(u.uracf) == u.uracf;
  }

  /** After leaving, every guest change is refused by the client before any
      request is made. */
  lemma LeavingBlocksChanges(op: ApiClient.Operation)
    requires ApiClient.NeedsIdentity(op)
    ensures ApiClient.BuildRequest(op, None) == Failure(ApiClient.MsgNoIdentity)
  {
  }
}
