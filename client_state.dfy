/**
 * The client's session state and its reducer (client/src/state/appStateReducer.ts).
 * The client's `Permissions` record has the same thirty flags as the
 * server's, so a user's flags are the set of `Auth.Perm` that are true.
 */
module ClientState {
  import opened Common
  import opened Auth

  /** The signed-in evaluator as the client holds it. */
  datatype ClientUser = ClientUser(id: int, name: string, kaid: string, accountLocked: bool,
                                   email: string, username: string, nickname: string,
                                   permissions: Permissions)

  /** The whole client state. */
  datatype AppState = AppState(user: Option<ClientUser>, loggedIn: bool, isAdmin: bool,
                               isImpersonated: bool, originKaid: Option<string>)

  /**
   * A dispatched action. `Other` stands for any action object whose type
   * is neither "LOGOUT" nor "LOGIN", which the switch's default case takes.
   */
  datatype Action = LogoutAction | LoginAction(payload: AppState) | Other(tag: string)

  /** The state the app starts in. */
  const InitialState: AppState := AppState(None, false, false, false, None)

  /** Is the state that of nobody signed in, with every flag cleared? */
  predicate SignedOut(s: AppState) {
    s.user.None? && !s.loggedIn && !s.isAdmin && !s.isImpersonated && s.originKaid.None?
  }

  /** The reducer: LOGOUT clears everything, LOGIN takes its payload whole, anything else changes nothing. */
  function Reduce(s: AppState, a: Action): (r: AppState)
    ensures a.LogoutAction? ==> SignedOut(r)
    ensures a.LoginAction? ==> r == a.payload
    ensures a.Other? ==> r == s
  {
    match a
    case LogoutAction => AppState(None, false, false, false, None)
    case LoginAction(p) => p
    case Other(_) => s
  }

  /** The `logout()` action builder: dispatched from any state, it leaves the initial state. */
  function Logout(): (a: Action)
    ensures forall s :: Reduce(s, a) == InitialState
  {
    LogoutAction
  }

  /** The `login(user)` action builder: dispatched from any state, it leaves exactly the payload. */
  function Login(payload: AppState): (a: Action)
    ensures forall s :: Reduce(s, a) == payload
  {
    LoginAction(payload)
  }

  /** The initial state is a signed-out one, and it is the only signed-out state. */
  lemma InitialStateSignedOut(s: AppState)
    ensures SignedOut(InitialState)
    ensures SignedOut(s) <==> s == InitialState
  {
  }

  /** Logging out gives the initial state from any state, so logging out twice is logging out once. */
  lemma LogoutIdempotent(s: AppState)
    ensures Reduce(s, Logout()) == InitialState
    ensures Reduce(Reduce(s, Logout()), Logout()) == Reduce(s, Logout())
  {
  }

  /** Logging in forgets the prior state entirely, and logging out after it undoes it. */
  lemma LoginForgetsPrior(s: AppState, t: AppState, payload: AppState)
    ensures Reduce(s, Login(payload)) == Reduce(t, Login(payload))
    ensures Reduce(Reduce(s, Login(payload)), Login(payload)) == payload
    ensures Reduce(Reduce(s, Login(payload)), Logout()) == InitialState
  {
  }

  /** The state after a sequence of actions, each reduced in turn; unknown actions alone leave the state as it was. */
  function Replay(s: AppState, actions: seq<Action>): (r: AppState)
    ensures (forall i :: 0 <= i < |actions| ==> actions[i].Other?) ==> r == s
  {
    if |actions| == 0 then s else Reduce(Replay(s, actions[..|actions| - 1]), actions[|actions| - 1])
  }

  /** Replaying from a LOGOUT followed only by unknown actions leaves the initial state, whatever came before. */
  lemma {:induction false} ReplayAfterLogout(s: AppState, before: seq<Action>, after: seq<Action>)
    requires forall i :: 0 <= i < |after| ==> after[i].Other?
    ensures Replay(s, before + [Logout()] + after) == InitialState
  {
    var all := before + [Logout()] + after;
    if |after| == 0 {
      assert all[..|all| - 1] == before;
    } else {
      var shorter := after[..|after| - 1];
      assert all[..|all| - 1] == before + [Logout()] + shorter;
      assert all[|all| - 1] == after[|after| - 1];
      ReplayAfterLogout(s, before, shorter);
    }
  }

  /** Replaying from a LOGIN followed only by unknown actions leaves its payload, whatever came before. */
  lemma {:induction false} ReplayAfterLogin(s: AppState, payload: AppState, before: seq<Action>, after: seq<Action>)
    requires forall i :: 0 <= i < |after| ==> after[i].Other?
    ensures Replay(s, before + [Login(payload)] + after) == payload
  {
    var all := before + [Login(payload)] + after;
    if |after| == 0 {
      assert all[..|all| - 1] == before;
    } else {
      var shorter := after[..|after| - 1];
      assert all[..|all| - 1] == before + [Login(payload)] + shorter;
      assert all[|all| - 1] == after[|after| - 1];
      ReplayAfterLogin(s, payload, before, shorter);
    }
  }

  /**
   * Together: the state after a sequence of actions is fixed by the last
   * LOGIN or LOGOUT in it, and the actions before that one do not matter.
   */
  lemma ReplayForgetsBefore(s: AppState, t: AppState, before: seq<Action>, before2: seq<Action>, a: Action, after: seq<Action>)
    requires a.LoginAction? || a.LogoutAction?
    requires forall i :: 0 <= i < |after| ==> after[i].Other?
    ensures Replay(s, before + [a] + after) == Replay(t, before2 + [a] + after)
  {
    if a.LogoutAction? {
      ReplayAfterLogout(s, before, after);
      ReplayAfterLogout(t, before2, after);
    } else {
      ReplayAfterLogin(s, a.payload, before, after);
      ReplayAfterLogin(t, a.payload, before2, after);
    }
  }
}
