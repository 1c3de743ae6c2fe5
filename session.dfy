/**
 * The session handlers of handlers/auth.js: changing a password, logging
 * out, and assuming (then giving back) another evaluator's identity, with
 * the isLoggedIn middleware that turns the `jwtToken` cookie into the
 * handlers' `request.decodedToken`.
 *
 * The cookie holds the signed payload itself, and the middleware hands
 * that payload on unchanged: the handlers see exactly what was signed.
 * Hashing the new password is a parameter, and the `evaluator` table is
 * reduced to what the handlers read and to the password hashes they write:
 * the row createJWTToken reads by kaid, the account_locked flag the
 * middleware reads by id, and each evaluator's password hash by id.
 */
module Session {
  import opened Common
  import opened Auth

  /** What the handler sends back. */
  datatype Reply = Success | RedirectTo(path: string) | Failed(status: int) | Crashed

  /**
   * A signed session payload, as `request.decodedToken` presents it.
   * `perms` is None when the payload has no `permissions` object, so that
   * reading one of its flags throws; a missing is_impersonated reads as false.
   */
  datatype Token = Token(id: int, kaid: string, isAdmin: bool, perms: Option<Permissions>,
                         isImpersonated: bool, originKaid: Option<string>)

  /** The `jwtToken` cookie: absent, one whose signature does not verify, or a signed payload. */
  datatype Cookie = NoCookie | Unverified | Jwt(payload: Token)

  /** The evaluator row createJWTToken reads by kaid. */
  datatype Account = Account(id: int, isAdmin: bool)

  /** What isLoggedIn does with a request: run the handler with this token, or send the caller to /login. */
  datatype Admission = Pass(token: Option<Token>) | LockedOut | Stalled

  /**
   * isLoggedIn (middleware/isLoggedIn.js). `locked` maps evaluator ids to
   * account_locked. No cookie or a bad signature gives a null token; a
   * verified payload whose account is locked has its cookie cleared and is
   * redirected to /login; an unlocked one is handed on as it was signed.
   * A payload whose id has no row reads `account_locked` from `undefined`
   * inside the query callback, and the request is never answered.
   */
  function Decode(locked: map<int, bool>, c: Cookie): (d: Admission)
    ensures d == Pass(None) <==> c.NoCookie? || c.Unverified?
    ensures d.Pass? && d.token.Some? <==> c.Jwt? && c.payload.id in locked && !locked[c.payload.id]
    ensures d.Pass? && d.token.Some? ==> d.token.value == c.payload
    ensures d == LockedOut <==> c.Jwt? && c.payload.id in locked && locked[c.payload.id]
  {
    match c
    case NoCookie => Pass(None)
    case Unverified => Pass(None)
    case Jwt(p) =>
      if p.id !in locked then Stalled
      else if locked[p.id] then LockedOut
      else Pass(Some(p))
  }

  /** `decodedToken.permissions.<flag>`: None when the read throws because the payload has no permissions. */
  function Flag(t: Token, p: Perm): (r: Option<bool>)
    ensures r.None? <==> t.perms.None?
    ensures r.Some? ==> (r.value <==> p in t.perms.value)
  {
    match t.perms
    case None => None
    case Some(ps) => Some(p in ps)
  }

  // ---------------------------------------------------------------- changePassword

  /**
   * Does `caller` pass the test of handlers/auth.js:16 without throwing?
   * Their own id, or else a permissions object with
   * change_user_passwords, or admin.
   */
  predicate MayChangePassword(caller: Token, target: Option<int>) {
    target == Some(caller.id) || (caller.perms.Some? && (ChangeUserPasswords in caller.perms.value || caller.isAdmin))
  }

  /**
   * changePassword. `target` is the body's evaluator_id after parseInt
   * (None for NaN), `hash` the bcrypt hash of the new password. Reading
   * the permissions of a payload that has none throws, and the catch
   * answers 500. A NaN id that passes the permission test reaches the
   * UPDATE, which rejects it with 400; an id with no row updates nothing
   * and still succeeds.
   */
  function ChangePassword(token: Option<Token>, target: Option<int>, hash: string, passwords: map<int, string>)
    : (r: (Reply, map<int, string>))
    ensures r.0 != Success ==> r.1 == passwords
  {
    match token
    case None => (Failed(403), passwords)
    case Some(caller) =>
      if target != Some(caller.id) && Flag(caller, ChangeUserPasswords).None? then (Failed(500), passwords)
      else if !MayChangePassword(caller, target) then (Failed(403), passwords)
      else match target
        case None => (Failed(400), passwords)
        case Some(id) => (Success, if id in passwords then passwords[id := hash] else passwords)
  }

  /**
   * The request gets past the permission test exactly when the caller may
   * change the target's password; it throws exactly when another
   * evaluator's password is asked for with a payload that has no
   * permissions; on success only the target's hash changes.
   */
  lemma ChangePasswordGate(token: Option<Token>, target: Option<int>, hash: string, passwords: map<int, string>)
    ensures var (reply, after) := ChangePassword(token, target, hash, passwords);
            reply != Failed(403) && reply != Failed(500) <==> token.Some? && MayChangePassword(token.value, target)
    ensures var (reply, after) := ChangePassword(token, target, hash, passwords);
            reply == Failed(500) <==> token.Some? && target != Some(token.value.id) && token.value.perms.None?
    ensures var (reply, after) := ChangePassword(token, target, hash, passwords);
            reply == Success ==>
              (target.Some? && after.Keys == passwords.Keys
               && (target.value in passwords ==> after[target.value] == hash)
               && forall id :: id in passwords && id != target.value ==> after[id] == passwords[id])
  {
  }

  /** An evaluator signed in can always change their own password, whatever their payload holds. */
  lemma OwnPasswordAlwaysChangeable(caller: Token, hash: string, passwords: map<int, string>)
    requires caller.id in passwords
    ensures ChangePassword(Some(caller), Some(caller.id), hash, passwords) == (Success, passwords[caller.id := hash])
  {
  }

  // ---------------------------------------------------------------- logout

  /** logout: clear the cookie and redirect to /login; 401 without a token. */
  function Logout(token: Option<Token>, c: Cookie): (r: (Reply, Cookie))
    ensures token.None? ==> r == (Failed(401), c)
    ensures token.Some? ==> r.1 == NoCookie && r.0 == RedirectTo("/login")
  {
    if token.Some? then (RedirectTo("/login"), NoCookie) else (Failed(401), c)
  }

  /** After a logout the next request carries no caller, and logging out again is refused with 401. */
  lemma LogoutEndsSession(locked: map<int, bool>, token: Option<Token>, c: Cookie)
    requires token.Some?
    ensures Decode(locked, Logout(token, c).1) == Pass(None)
    ensures Logout(Decode(locked, Logout(token, c).1).token, NoCookie) == (Failed(401), NoCookie)
  {
  }

  // ---------------------------------------------------------------- assumeUserIdentity

  /** Does a non-impersonated caller pass the test of handlers/auth.js:58 without throwing? */
  predicate MayAssume(caller: Token) {
    caller.perms.Some? && (AssumeUserIdentities in caller.perms.value || caller.isAdmin)
  }

  /**
   * createJWTToken as written: it takes the kaid only and signs the row's
   * id, kaid and admin flag, with neither permissions nor is_impersonated
   * nor origin_kaid; a kaid with no evaluator row makes it destructure
   * `undefined` inside the query callback.
   */
  function MintAsWritten(accounts: map<string, Account>, kaid: Option<string>): (r: Option<Cookie>)
    ensures r.Some? <==> kaid.Some? && kaid.value in accounts
    ensures r.Some? ==> r.value == Jwt(Token(accounts[kaid.value].id, kaid.value, accounts[kaid.value].isAdmin,
                                             None, false, None))
  {
    if kaid.Some? && kaid.value in accounts then
      var a := accounts[kaid.value];
      Some(Jwt(Token(a.id, kaid.value, a.isAdmin, None, false, None)))
    else None
  }

  /**
   * assumeUserIdentity as written. 401 without a token. For a caller that
   * is not impersonated the permissions are read first: a payload without
   * them throws, and the catch answers 500; with assume_user_identities or
   * admin the caller gets a session for the target, otherwise 403. An
   * impersonated caller gets its origin's session back. A kaid without a
   * row crashes the handler, sending nothing.
   */
  function AssumeUserIdentityAsWritten(token: Option<Token>, c: Cookie, accounts: map<string, Account>, target: string)
    : (r: (Reply, Cookie))
    ensures r.0 != Success ==> r.1 == c
  {
    match token
    case None => (Failed(401), c)
    case Some(caller) =>
      if !caller.isImpersonated && Flag(caller, AssumeUserIdentities).None? then (Failed(500), c)
      else
        var minted :=
          if !caller.isImpersonated && MayAssume(caller) then MintAsWritten(accounts, Some(target))
          else if caller.isImpersonated then MintAsWritten(accounts, caller.originKaid)
          else None;
        if !caller.isImpersonated && !MayAssume(caller) then (Failed(403), c)
        else if minted.Some? then (Success, minted.value)
        else (Crashed, c)
  }

  /**
   * The session minted for an assumed identity is an ordinary one without
   * permissions: the next request is not impersonated, so the handler's
   * way back is never taken, and the permission read of the first branch
   * throws, so asking to revert answers 500.
   */
  lemma AsWrittenImpersonationCannotRevert()
    ensures var admin := Token(1, "kaid_admin", true, Some({}), false, None);
            var accounts := map["kaid_admin" := Account(1, true), "kaid_judge" := Account(2, false)];
            var locked := map[1 := false, 2 := false];
            var judge := Token(2, "kaid_judge", false, None, false, None);
            var (reply, c) := AssumeUserIdentityAsWritten(Some(admin), NoCookie, accounts, "kaid_judge");
            reply == Success && c == Jwt(judge)
            && Decode(locked, c) == Pass(Some(judge))
            && AssumeUserIdentityAsWritten(Some(judge), c, accounts, "kaid_admin") == (Failed(500), c)
  {
    var admin := Token(1, "kaid_admin", true, Some({}), false, None);
    var accounts := map["kaid_admin" := Account(1, true), "kaid_judge" := Account(2, false)];
    var judge := Token(2, "kaid_judge", false, None, false, None);
    assert MintAsWritten(accounts, Some("kaid_judge")) == Some(Jwt(judge));
    assert AssumeUserIdentityAsWritten(Some(admin), NoCookie, accounts, "kaid_judge") == (Success, Jwt(judge));
  }

  /**
   * A session minted by createJWTToken carries no permissions: from it,
   * asking to change another evaluator's password answers 500, even for
   * an admin.
   */
  lemma MintedSessionLacksPermissions(accounts: map<string, Account>, kaid: string, other: int,
                                      hash: string, passwords: map<int, string>)
    requires kaid in accounts && other != accounts[kaid].id
    ensures var c := MintAsWritten(accounts, Some(kaid)).value;
            ChangePassword(Some(c.payload), Some(other), hash, passwords) == (Failed(500), passwords)
  {
  }

  /** An admin assuming a kaid that has no evaluator row crashes the handler. */
  lemma AsWrittenUnknownKaidCrashes()
    ensures AssumeUserIdentityAsWritten(Some(Token(1, "kaid_admin", true, Some({}), false, None)), NoCookie,
                                        map["kaid_admin" := Account(1, true)], "kaid_nobody").0 == Crashed
  {
  }

  /**
   * createJWTToken as intended: the origin it is given is signed into the
   * token, which is then an impersonated one; a kaid with no row is the
   * rejected promise the handler answers with 400. Like the written one,
   * it signs no permissions.
   */
  function Mint(accounts: map<string, Account>, kaid: Option<string>, origin: Option<string>): (r: Option<Cookie>)
    ensures r.Some? <==> kaid.Some? && kaid.value in accounts
    ensures r.Some? ==> r.value == Jwt(Token(accounts[kaid.value].id, kaid.value, accounts[kaid.value].isAdmin,
                                             None, origin.Some?, origin))
  {
    if kaid.Some? && kaid.value in accounts then
      var a := accounts[kaid.value];
      Some(Jwt(Token(a.id, kaid.value, a.isAdmin, None, origin.Some?, origin)))
    else None
  }

  /**
   * assumeUserIdentity with the origin kept in the new session and a
   * failed mint answered with 400; the cookie was already cleared when
   * the mint was started, so that answer clears it.
   */
  function AssumeUserIdentity(token: Option<Token>, c: Cookie, accounts: map<string, Account>, target: string)
    : (r: (Reply, Cookie))
    ensures r.0 != Success && r.0 != Failed(400) ==> r.1 == c
    ensures r.0 == Failed(400) ==> r.1 == NoCookie
    ensures r.0 != Crashed
  {
    match token
    case None => (Failed(401), c)
    case Some(caller) =>
      if !caller.isImpersonated && Flag(caller, AssumeUserIdentities).None? then (Failed(500), c)
      else
        var minted :=
          if !caller.isImpersonated && MayAssume(caller) then Mint(accounts, Some(target), Some(caller.kaid))
          else if caller.isImpersonated then Mint(accounts, caller.originKaid, None)
          else None;
        if !caller.isImpersonated && !MayAssume(caller) then (Failed(403), c)
        else if minted.Some? then (Success, minted.value)
        else (Failed(400), NoCookie)
  }

  /**
   * The branches: a permitted non-impersonated caller gets the target's
   * session with itself as origin; an impersonated caller gets its
   * origin's plain session whatever its payload holds; a non-impersonated
   * caller whose payload has no permissions gets 500; one without the
   * right gets 403 and keeps the cookie.
   */
  lemma AssumeUserIdentityBranches(caller: Token, c: Cookie, accounts: map<string, Account>, target: string)
    ensures var (reply, after) := AssumeUserIdentity(Some(caller), c, accounts, target);
            !caller.isImpersonated && MayAssume(caller) && target in accounts ==>
              reply == Success
              && after == Jwt(Token(accounts[target].id, target, accounts[target].isAdmin, None, true, Some(caller.kaid)))
    ensures var (reply, after) := AssumeUserIdentity(Some(caller), c, accounts, target);
            caller.isImpersonated && caller.originKaid.Some? && caller.originKaid.value in accounts ==>
              reply == Success && after.Jwt? && after.payload.kaid == caller.originKaid.value
              && !after.payload.isImpersonated && after.payload.originKaid.None?
    ensures var (reply, after) := AssumeUserIdentity(Some(caller), c, accounts, target);
            reply == Failed(500) <==> !caller.isImpersonated && caller.perms.None?
    ensures var (reply, after) := AssumeUserIdentity(Some(caller), c, accounts, target);
            reply == Failed(403) <==> !caller.isImpersonated && caller.perms.Some? && !MayAssume(caller)
    ensures var (reply, after) := AssumeUserIdentity(Some(caller), c, accounts, target);
            reply == Success <==> (caller.isImpersonated && caller.originKaid.Some? && caller.originKaid.value in accounts)
                                  || (!caller.isImpersonated && MayAssume(caller) && target in accounts)
  {
  }

  /**
   * No nested impersonation: an impersonated session only ever comes from
   * a caller that was not impersonated, and names that caller as origin;
   * an impersonated caller only ever gets a plain session.
   */
  lemma NoNestedImpersonation(caller: Token, c: Cookie, accounts: map<string, Account>, target: string)
    ensures var (reply, after) := AssumeUserIdentity(Some(caller), c, accounts, target);
            reply == Success && after.Jwt? && after.payload.isImpersonated ==>
              !caller.isImpersonated && after.payload.originKaid == Some(caller.kaid)
    ensures var (reply, after) := AssumeUserIdentity(Some(caller), c, accounts, target);
            reply == Success && caller.isImpersonated ==>
              after.Jwt? && !after.payload.isImpersonated && after.payload.originKaid.None?
  {
  }

  /**
   * Assuming an identity and asking again from the new session, which
   * the middleware hands on as signed, gives back a plain session of the
   * original evaluator, though the assumed session has no permissions.
   */
  lemma {:induction false} AssumeThenRevert(accounts: map<string, Account>, locked: map<int, bool>,
                                            caller: Token, c: Cookie, target: string)
    requires !caller.isImpersonated && MayAssume(caller)
    requires caller.kaid in accounts && target in accounts
    requires accounts[target].id in locked && !locked[accounts[target].id]
    ensures var (_, c1) := AssumeUserIdentity(Some(caller), c, accounts, target);
            var d := Decode(locked, c1);
            d.Pass? && d.token.Some? && d.token.value.kaid == target && d.token.value.isImpersonated
            && d.token.value.perms.None?
            && AssumeUserIdentity(d.token, c1, accounts, target)
               == (Success, Jwt(Token(accounts[caller.kaid].id, caller.kaid, accounts[caller.kaid].isAdmin,
                                      None, false, None)))
  {
    var a := accounts[target];
    var c1 := Jwt(Token(a.id, target, a.isAdmin, None, true, Some(caller.kaid)));
    assert AssumeUserIdentity(Some(caller), c, accounts, target) == (Success, c1);
    assert Decode(locked, c1) == Pass(Some(c1.payload));
  }

  /** Without a token changePassword answers 403, while logout and assumeUserIdentity answer 401. */
  lemma MissingTokenStatuses(c: Cookie, target: Option<int>, hash: string, passwords: map<int, string>,
                             accounts: map<string, Account>, kaid: string)
    ensures ChangePassword(None, target, hash, passwords).0 == Failed(403)
    ensures Logout(None, c).0 == Failed(401)
    ensures AssumeUserIdentity(None, c, accounts, kaid).0 == Failed(401)
    ensures AssumeUserIdentityAsWritten(None, c, accounts, kaid).0 == Failed(401)
  {
  }

  /**
   * The corrected handler answers 400 exactly where the written one
   * crashes, gives the same reply everywhere else, and on success signs a
   * session for the same evaluator.
   */
  lemma AssumeCorrectionAgrees(token: Option<Token>, c: Cookie, accounts: map<string, Account>, target: string)
    ensures var (r1, c1) := AssumeUserIdentityAsWritten(token, c, accounts, target);
            var (r2, c2) := AssumeUserIdentity(token, c, accounts, target);
            (r1 == Crashed <==> r2 == Failed(400))
            && (r1 != Crashed ==> r1 == r2)
            && (r1 == Success ==> c2.Jwt? && c1.Jwt? && c1.payload.kaid == c2.payload.kaid
                                  && c1.payload.id == c2.payload.id)
  {
  }
}
