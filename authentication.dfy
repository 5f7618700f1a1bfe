/**
 * redux/redux-reducers/authentication.js: the `auth` reducer over the
 * `credentials` slice `{isLoggedIn, userLogin}`.
 */
module Authentication {
  import opened Wrappers

  /**
   * The slice: `userLogin` holds the login response (`None` for `null`);
   * `others` stands for any further fields a state may carry, which every
   * action copies through its `...state` spread.
   */
  datatype AuthState<U, V> = AuthState(isLoggedIn: bool, userLogin: Option<U>, others: map<string, V>)

  /** A dispatched action `{type, payload, response}`; `None` stands for a missing `response`. */
  datatype Action<U, P> = Action(kind: string, payload: P, response: Option<U>)

  const LoginSuccess := "LOGIN_SUCCESS"
  const LoginFail := "LOGIN_FAIL"
  const Logout := "LOGOUT"

  /** `initialState` */
  function InitialState<U, V>(): (s: AuthState<U, V>)
    ensures !s.isLoggedIn && s.userLogin == None && s.others == map[]
  {
    AuthState(false, None, map[])
  }

  /** `auth(state = initialState, action)`; `None` is the `undefined` state of the store's first call. */
  function Auth<U, V, P>(state: Option<AuthState<U, V>>, action: Action<U, P>): (r: AuthState<U, V>)
    ensures var s := if state.None? then InitialState() else state.value;
      && r.others == s.others
      && (action.kind == LoginSuccess ==> r.isLoggedIn && r.userLogin == action.response)
      && (action.kind in {LoginFail, Logout} ==> !r.isLoggedIn && r.userLogin == None)
      && (action.kind !in {LoginSuccess, LoginFail, Logout} ==> r == s)
  {
    var s := if state.None? then InitialState() else state.value;
    match action.kind
    case "LOGIN_SUCCESS" => s.(isLoggedIn := true, userLogin := action.response)
    case "LOGIN_FAIL" => s.(isLoggedIn := false, userLogin := None)
    case "LOGOUT" => s.(isLoggedIn := false, userLogin := None)
    case _ => s
  }

  /** Logging out twice is the same as logging out once, whatever the payloads. */
  lemma LogoutIdempotent<U, V, P>(s: AuthState<U, V>, a: Action<U, P>, b: Action<U, P>)
    requires a.kind == Logout && b.kind == Logout
    ensures Auth(Some(Auth(Some(s), a)), b) == Auth(Some(s), a)
  {
  }

  /** `LOGIN_FAIL` and `LOGOUT` lead to the same state. */
  lemma FailIsLogout<U, V, P>(s: Option<AuthState<U, V>>, a: Action<U, P>, b: Action<U, P>)
    requires a.kind == LoginFail && b.kind == Logout
    ensures Auth(s, a) == Auth(s, b)
  {
  }

  /** The store's state after dispatching `actions` in order from the first, `undefined`, call. */
  function Replay<U, V, P>(actions: seq<Action<U, P>>): (r: AuthState<U, V>)
    ensures (forall i :: 0 <= i < |actions| ==> actions[i].kind != LoginSuccess) ==> !r.isLoggedIn && r.userLogin == None
    ensures |actions| > 0 && actions[|actions| - 1].kind == LoginSuccess ==>
      r.isLoggedIn && r.userLogin == actions[|actions| - 1].response
    decreases |actions|
  {
    if |actions| == 0 then InitialState()
    else Auth(Some(Replay(actions[..|actions| - 1])), actions[|actions| - 1])
  }

  /** A logged-out state never holds a user. */
  predicate LoggedOutHasNoUser<U, V>(s: AuthState<U, V>) {
    !s.isLoggedIn ==> s.userLogin == None
  }

  /** Every reachable state keeps `LoggedOutHasNoUser` and carries no other field. */
  lemma {:induction false} ReplayInvariant<U, V, P>(actions: seq<Action<U, P>>)
    ensures LoggedOutHasNoUser(Replay<U, V, P>(actions))
    ensures Replay<U, V, P>(actions).others == map[]
    decreases |actions|
  {
    if |actions| > 0 {
      ReplayInvariant<U, V, P>(actions[..|actions| - 1]);
    }
  }

  /** After any history, the last login or logout decides `isLoggedIn`. */
  lemma {:induction false} ReplayLastDecides<U, V, P>(actions: seq<Action<U, P>>, i: nat)
    requires i < |actions| && actions[i].kind in {LoginSuccess, LoginFail, Logout}
    requires forall j :: i < j < |actions| ==> actions[j].kind !in {LoginSuccess, LoginFail, Logout}
    ensures Replay<U, V, P>(actions).isLoggedIn <==> actions[i].kind == LoginSuccess
    ensures Replay<U, V, P>(actions).userLogin == (if actions[i].kind == LoginSuccess then actions[i].response else None)
    decreases |actions|
  {
    if i < |actions| - 1 {
      var prefix := actions[..|actions| - 1];
      assert prefix[i] == actions[i];
      assert forall j :: i < j < |prefix| ==> prefix[j] == actions[j];
      ReplayLastDecides<U, V, P>(prefix, i);
    }
  }
}
