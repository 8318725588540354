/**
 * The authentication reducer of MobileApp/reducers/authReducer.js: two flags,
 * `isLoading` and `isLoggedIn`, changed only by `LOGIN` and `LOGOUT`.
 */
module Auth {

  /**
   * The reducer's state object. `others` holds any further properties the
   * object may carry; the spread `...state` copies them unchanged. Only a
   * state that is `WellFormed` stands for a JavaScript object.
   */
  datatype AuthState<V> = AuthState(isLoading: bool, isLoggedIn: bool, others: map<string, V>)

  /** The other properties do not repeat the two flag names. */
  predicate WellFormed<V>(state: AuthState<V>)
  {
    "isLoading" !in state.others && "isLoggedIn" !in state.others
  }

  /** A dispatched action, identified by its `type` string. */
  datatype AuthAction = AuthAction(kind: string)

  const LOGIN: string := "LOGIN"
  const LOGOUT: string := "LOGOUT"

  /** `initialState`: still loading, not logged in, no further properties. */
  function InitialState<V>(): (s: AuthState<V>)
    ensures s.isLoading && !s.isLoggedIn && s.others == map[]
    ensures WellFormed(s)
  {
    AuthState(true, false, map[])
  }

  predicate IsSessionEvent(action: AuthAction)
  {
    action.kind == LOGIN || action.kind == LOGOUT
  }

  /** `authReducer(state, action)`. */
  function Reduce<V>(state: AuthState<V>, action: AuthAction): (r: AuthState<V>)
    ensures r.others == state.others
    ensures IsSessionEvent(action) ==> !r.isLoading && (r.isLoggedIn <==> action.kind == LOGIN)
    ensures !IsSessionEvent(action) ==> r == state
  {
    if action.kind == LOGIN then state.(isLoading := false, isLoggedIn := true)
    else if action.kind == LOGOUT then state.(isLoading := false, isLoggedIn := false)
    else state
  }

  /** The reducer keeps a well-formed state well-formed. */
  lemma ReducePreservesWellFormed<V>(state: AuthState<V>, action: AuthAction)
    requires WellFormed(state)
    ensures WellFormed(Reduce(state, action))
  {
  }

  /** The state after dispatching `actions` in order, starting from `state`. */
  function Run<V>(state: AuthState<V>, actions: seq<AuthAction>): AuthState<V>
  {
    if actions == [] then state
    else Reduce(Run(state, actions[..|actions| - 1]), actions[|actions| - 1])
  }

  /** `actions[i]` is a `LOGIN` or `LOGOUT` and no later action is. */
  ghost predicate LastSessionEventAt(actions: seq<AuthAction>, i: int)
  {
    && 0 <= i < |actions|
    && IsSessionEvent(actions[i])
    && forall j :: i < j < |actions| ==> !IsSessionEvent(actions[j])
  }

  /** `LOGIN` twice is `LOGIN` once. */
  lemma LoginIdempotent<V>(state: AuthState<V>)
    ensures Reduce(Reduce(state, AuthAction(LOGIN)), AuthAction(LOGIN)) == Reduce(state, AuthAction(LOGIN))
  {
  }

  /** `LOGOUT` twice is `LOGOUT` once. */
  lemma LogoutIdempotent<V>(state: AuthState<V>)
    ensures Reduce(Reduce(state, AuthAction(LOGOUT)), AuthAction(LOGOUT)) == Reduce(state, AuthAction(LOGOUT))
  {
  }

  /** No sequence of actions changes the properties the reducer does not name. */
  lemma {:induction false} RunKeepsOthers<V>(state: AuthState<V>, actions: seq<AuthAction>)
    ensures Run(state, actions).others == state.others
  {
    if actions != [] {
      RunKeepsOthers(state, actions[..|actions| - 1]);
    }
  }

  /** Actions that are neither `LOGIN` nor `LOGOUT` leave the state as it was. */
  lemma {:induction false} RunWithoutSessionEvents<V>(state: AuthState<V>, actions: seq<AuthAction>)
    requires forall j :: 0 <= j < |actions| ==> !IsSessionEvent(actions[j])
    ensures Run(state, actions) == state
  {
    if actions != [] {
      RunWithoutSessionEvents(state, actions[..|actions| - 1]);
    }
  }

  /**
   * After any sequence of actions, `isLoggedIn` tells whether the last `LOGIN`
   * or `LOGOUT` was a `LOGIN`, and `isLoading` is false.
   */
  lemma {:induction false} RunFollowsLastSessionEvent<V>(state: AuthState<V>, actions: seq<AuthAction>, i: int)
    requires LastSessionEventAt(actions, i)
    ensures !Run(state, actions).isLoading
    ensures Run(state, actions).isLoggedIn <==> actions[i].kind == LOGIN
  {
    var init := actions[..|actions| - 1];
    if i == |actions| - 1 {
      assert Run(state, actions) == Reduce(Run(state, init), actions[i]);
    } else {
      assert LastSessionEventAt(init, i);
      RunFollowsLastSessionEvent(state, init, i);
    }
  }

  /** Once a `LOGIN` or `LOGOUT` has cleared `isLoading`, no later action sets it again. */
  lemma {:induction false} LoadingStaysCleared<V>(state: AuthState<V>, done: seq<AuthAction>, later: seq<AuthAction>)
    requires !Run(state, done).isLoading
    ensures !Run(state, done + later).isLoading
  {
    if later != [] {
      var init := later[..|later| - 1];
      assert (done + later)[..|done + later| - 1] == done + init;
      assert (done + later)[|done + later| - 1] == later[|later| - 1];
      LoadingStaysCleared(state, done, init);
    } else {
      assert done + later == done;
    }
  }
}
