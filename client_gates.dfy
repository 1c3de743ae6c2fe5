/**
 * The client's two permission gates: the table cell that hides itself
 * (client/src/shared/Table/Cell/Cell.tsx) and the route that redirects or
 * refuses (client/src/shared/Routes/ProtectedRoute/ProtectedRoute.tsx).
 */
module ClientGates {
  import opened Common
  import opened Auth
  import opened ClientState

  /** `state.user?.permissions[p]`: false when no user is held. */
  predicate Flag(s: AppState, p: Perm) {
    s.user.Some? && p in s.user.value.permissions
  }

  /** Every listed flag is set. */
  predicate AllFlags(s: AppState, ps: seq<Perm>) {
    forall i :: 0 <= i < |ps| ==> Flag(s, ps[i])
  }

  /** Some listed flag is set. */
  predicate AnyFlag(s: AppState, ps: seq<Perm>) {
    exists i :: 0 <= i < |ps| && Flag(s, ps[i])
  }

  // ---------------------------------------------------------------- Cell

  /**
   * The props of a cell; an absent boolean prop is false, and `width` is
   * None when not given.
   */
  datatype CellProps = CellProps(header: bool, width: Option<string>, permissions: Option<seq<Perm>>,
                                 requireAllPermissions: bool, requireLoggedIn: bool)

  /** What a cell renders: nothing, a header cell with its style width, or a data cell. */
  datatype CellRender = Hidden | Th(width: Option<string>) | Td

  /** Does the cell render at all? The reference statement of the gate. */
  predicate CellShown(s: AppState, p: CellProps) {
    !(p.requireLoggedIn && !s.loggedIn)
    && (p.permissions.Some? && !s.isAdmin ==>
          s.loggedIn
          && (if p.requireAllPermissions then AllFlags(s, p.permissions.value) else AnyFlag(s, p.permissions.value)))
  }

  /**
   * Cell: the requireLoggedIn test, then, for a non-admin and a given
   * permission list, the sign-in test and a scan that sets and breaks on
   * `hasPermission`; a shown cell is a `th` (with the width when it is a
   * non-empty string) for a header and a `td` otherwise.
   */
  method Cell(s: AppState, p: CellProps) returns (r: CellRender)
    ensures r.Hidden? <==> !CellShown(s, p)
    ensures r.Th? <==> CellShown(s, p) && p.header
    ensures r.Th? ==> r.width == (if p.width.Some? && p.width.value != "" then p.width else None)
  {
    if p.requireLoggedIn && !s.loggedIn {
      return Hidden;
    }
    if p.permissions.Some? && !s.isAdmin {
      if !s.loggedIn {
        return Hidden;
      }
      var ps := p.permissions.value;
      var hasPermission: bool;
      if p.requireAllPermissions {
        hasPermission := true;
        var i := 0;
        while i < |ps|
          invariant 0 <= i <= |ps|
          invariant hasPermission <==> forall j :: 0 <= j < i ==> Flag(s, ps[j])
          invariant !hasPermission ==> !AllFlags(s, ps)
        {
          if !Flag(s, ps[i]) {
            hasPermission := false;
            break;
          }
          i := i + 1;
        }
      } else {
        hasPermission := false;
        var i := 0;
        while i < |ps|
          invariant 0 <= i <= |ps|
          invariant hasPermission ==> AnyFlag(s, ps)
          invariant !hasPermission ==> forall j :: 0 <= j < i ==> !Flag(s, ps[j])
        {
          if Flag(s, ps[i]) {
            hasPermission := true;
            break;
          }
          i := i + 1;
        }
      }
      if !hasPermission {
        return Hidden;
      }
    }
    if p.header {
      var width := None;
      if p.width.Some? && p.width.value != "" {
        width := p.width;
      }
      return Th(width);
    }
    return Td;
  }

  /** requireLoggedIn hides the cell from a signed-out caller, and so does any permission list from a signed-out non-admin. */
  lemma CellSignedOut(s: AppState, p: CellProps)
    requires !s.loggedIn
    ensures p.requireLoggedIn ==> !CellShown(s, p)
    ensures p.permissions.Some? && !s.isAdmin ==> !CellShown(s, p)
  {
  }

  /** An admin passes any permission list; only requireLoggedIn can still hide the cell. */
  lemma CellAdmin(s: AppState, p: CellProps)
    requires s.isAdmin
    ensures CellShown(s, p) <==> !(p.requireLoggedIn && !s.loggedIn)
  {
  }

  /** Without a permission list the permission test is skipped: only requireLoggedIn matters. */
  lemma CellWithoutPermissions(s: AppState, p: CellProps)
    requires p.permissions.None?
    ensures CellShown(s, p) <==> !p.requireLoggedIn || s.loggedIn
  {
  }

  /**
   * A signed-in non-admin with a permission list: shown iff every flag is
   * set under requireAllPermissions, iff some flag is set otherwise; so an
   * empty list shows the cell under requireAllPermissions and hides it without.
   */
  lemma CellPermissionList(s: AppState, p: CellProps)
    requires s.loggedIn && !s.isAdmin && p.permissions.Some?
    ensures p.requireAllPermissions ==>
              (CellShown(s, p) <==> forall q :: q in p.permissions.value ==> Flag(s, q))
    ensures !p.requireAllPermissions ==>
              (CellShown(s, p) <==> exists q :: q in p.permissions.value && Flag(s, q))
    ensures p.permissions.value == [] ==> (CellShown(s, p) <==> p.requireAllPermissions)
  {
    var ps := p.permissions.value;
    if !p.requireAllPermissions && (exists q :: q in ps && Flag(s, q)) {
      var q :| q in ps && Flag(s, q);
      var i :| 0 <= i < |ps| && ps[i] == q;
      assert Flag(s, ps[i]);
    }
  }

  /** More flags never hide a cell: gaining a permission only shows more. */
  lemma CellMonotone(s: AppState, t: AppState, p: CellProps)
    requires s.loggedIn ==> t.loggedIn
    requires s.isAdmin ==> t.isAdmin
    requires forall q :: Flag(s, q) ==> Flag(t, q)
    ensures CellShown(s, p) ==> CellShown(t, p)
  {
  }

  // ---------------------------------------------------------------- ProtectedRoute

  /** What a protected route renders. */
  datatype Route = RedirectToLogin | Children | NoPermission

  /**
   * ProtectedRoute: signed-out callers go to /login; admins get the page;
   * a non-empty list needs every flag under requireAll and any one flag
   * otherwise; an empty list means admins only.
   */
  function ProtectedRoute(s: AppState, permissions: seq<Perm>, requireAll: bool): (r: Route)
    ensures r == RedirectToLogin <==> !s.loggedIn
  {
    if !s.loggedIn then RedirectToLogin
    else if s.isAdmin then Children
    else if |permissions| > 0 && requireAll then (if AllFlags(s, permissions) then Children else NoPermission)
    else if |permissions| > 0 then (if AnyFlag(s, permissions) then Children else NoPermission)
    else NoPermission
  }

  /**
   * The route's decision in full: the login redirect comes before the
   * admin test, admins always get the page, and a non-admin gets it
   * exactly when the list is non-empty and its flags pass.
   */
  lemma ProtectedRouteGate(s: AppState, permissions: seq<Perm>, requireAll: bool)
    ensures !s.loggedIn ==> ProtectedRoute(s, permissions, requireAll) == RedirectToLogin
    ensures s.loggedIn && s.isAdmin ==> ProtectedRoute(s, permissions, requireAll) == Children
    ensures s.loggedIn && !s.isAdmin ==>
              (ProtectedRoute(s, permissions, requireAll) == Children <==>
                 |permissions| > 0 && (if requireAll then AllFlags(s, permissions) else AnyFlag(s, permissions)))
    ensures s.loggedIn && !s.isAdmin && permissions == [] ==> ProtectedRoute(s, permissions, requireAll) == NoPermission
  {
  }

  /**
   * For a signed-in caller and a non-empty list, a cell guarded by that
   * list shows exactly when the route with the same list renders its page.
   */
  lemma CellAgreesWithRoute(s: AppState, p: CellProps)
    requires s.loggedIn && p.permissions.Some? && |p.permissions.value| > 0
    ensures CellShown(s, p) <==> ProtectedRoute(s, p.permissions.value, p.requireAllPermissions) == Children
  {
  }

  /**
   * The empty list is where the two gates part: under requireAllPermissions
   * the cell shows to every signed-in caller, while the route refuses every
   * non-admin.
   */
  lemma EmptyListGates(s: AppState, p: CellProps)
    requires s.loggedIn && !s.isAdmin && p.permissions == Some([]) && p.requireAllPermissions
    ensures CellShown(s, p)
    ensures ProtectedRoute(s, [], true) == NoPermission
  {
  }
}
