/**
 * The authentication context the application's components read: the
 * signed-in user, whether a session is live, and whether the start-up check
 * is still running. Each handler is one atomic step over the state and the
 * store, delegating to the authentication service.
 */
module AuthContext {
  import opened Wrappers
  import opened Text
  import opened Storage
  import opened UserCodec
  import AS = AuthService

  datatype AuthState = AuthState(user: Option<UserData>, isAuthenticated: bool, loading: bool)

  /** Before the start-up check: nobody signed in, still loading. */
  const Initial := AuthState(None, false, true)

  datatype Checked = Checked(state: AuthState, store: Store)

  datatype LoginStep = LoginStep(state: AuthState, store: Store, result: AS.LoginResult)

  datatype LogoutStep = LogoutStep(state: AuthState, store: Store, result: AS.LogoutResult)

  /**
   * `checkAuthStatus` at time `now`: ask the service whether a live session
   * is stored and, when it is, load the stored user record. Loading ends
   * whatever the verdict.
   */
  function CheckAuthStatus(s: Store, now: nat, fault: Fault): (out: Checked)
    ensures !out.state.loading
    ensures out.state.isAuthenticated == AS.IsAuthenticated(s, now, fault).authenticated
    ensures out.store == AS.IsAuthenticated(s, now, fault).store
    ensures !out.state.isAuthenticated ==> out.state.user == None
    ensures out.state.isAuthenticated ==> out.store == s && out.state.user == AS.GetUserData(s)
  {
    var check := AS.IsAuthenticated(s, now, fault);
    if check.authenticated then Checked(AuthState(AS.GetUserData(check.store), true, false), check.store)
    else Checked(AuthState(None, false, false), check.store)
  }

  /**
   * Checking again at the same instant or later never revives a session the
   * first check found dead, and at the same instant repeats the first verdict
   * and user, whatever storage faults either check's sign-out met.
   */
  lemma CheckAuthStatusStable(s: Store, t1: nat, t2: nat, f1: Fault, f2: Fault)
    requires t1 <= t2
    ensures var first := CheckAuthStatus(s, t1, f1);
      var second := CheckAuthStatus(first.store, t2, f2);
      && (!first.state.isAuthenticated ==> second.state == first.state)
      && (t1 == t2 ==> second.state == first.state)
  {
    var first := CheckAuthStatus(s, t1, f1);
    if !first.state.isAuthenticated && first.store != s {
      // The first check signed an expired session out.
      assert Truthy(AS.GetToken(s)) && Truthy(GetItem(s, AS.ExpiresKey));
      assert AS.Expired(t1, s[AS.ExpiresKey]);
      SignedOutStaysOut(s, f1, t1, t2, f2);
    }
  }

  /**
   * After an expired session is signed out, even partly, no later check finds
   * a live one: whatever survived the removals has the values it had before.
   */
  lemma SignedOutStaysOut(s: Store, f1: Fault, t1: nat, t2: nat, f2: Fault)
    requires t1 <= t2 && AS.ExpiresKey in s && AS.Expired(t1, s[AS.ExpiresKey])
    ensures !AS.IsAuthenticated(AS.Logout(s, f1).store, t2, f2).authenticated
  {
    var gone := AS.Logout(s, f1).store;
    if Truthy(AS.GetToken(gone)) && Truthy(GetItem(gone, AS.ExpiresKey)) {
      LogoutKeepsOrRemoves(s, f1);
      assert gone[AS.ExpiresKey] == s[AS.ExpiresKey];
    }
  }

  /** A sign-out, even an interrupted one, removes keys and writes nothing. */
  lemma LogoutKeepsOrRemoves(s: Store, fault: Fault)
    ensures forall k :: k in AS.Logout(s, fault).store ==> k in s && AS.Logout(s, fault).store[k] == s[k]
  {
    AS.LogoutRemovalsShape();
    var n := Completed(AS.LogoutRemovals, fault);
    RemovesPrefix(AS.LogoutRemovals, n);
    ApplyRemoves(s, AS.LogoutRemovals[..n]);
  }

  lemma RemovesPrefix(ops: seq<Op>, n: nat)
    requires AllRemoves(ops) && n <= |ops|
    ensures AllRemoves(ops[..n])
  {
  }

  /**
   * `login`: a successful sign-in marks the user signed in and then re-runs
   * the status check at time `later`, whose verdict is final; a failed one
   * leaves the state alone. Either way the service's result is returned.
   */
  function Login(st: AuthState, s: Store, now: nat, reply: AS.IdentityReply, loginFault: Fault,
                 later: nat, checkFault: Fault): (out: LoginStep)
    ensures out.result == AS.Login(s, now, reply, loginFault).result
    ensures out.result.LoginErr? ==> out.state == st && out.store == AS.Login(s, now, reply, loginFault).store
    ensures out.result.LoginOk? ==>
      Checked(out.state, out.store) == CheckAuthStatus(AS.Login(s, now, reply, loginFault).store, later, checkFault)
  {
    var signedIn := AS.Login(s, now, reply, loginFault);
    match signedIn.result
    case LoginErr(_) => LoginStep(st, signedIn.store, signedIn.result)
    case LoginOk(_, _) =>
      // The state first marks the new user signed in; the re-check that
      // follows overwrites all three fields.
      var check := CheckAuthStatus(signedIn.store, later, checkFault);
      LoginStep(check.state, check.store, signedIn.result)
  }

  /**
   * A completed sign-in with a non-empty token, re-checked before the token
   * lapses, leaves the new user signed in; re-checked at or after the lapse,
   * it leaves nobody signed in and (with no storage fault) no session stored.
   */
  lemma LoginOutcome(st: AuthState, s: Store, now: nat, reply: AS.IdentityReply, later: nat)
    requires reply.Granted? && reply.idToken != ""
    ensures var out := Login(st, s, now, reply, NoFault, later, NoFault);
      && out.result == AS.LoginOk(AS.NewUser(reply), reply.idToken)
      && (later < now + reply.expiresIn * 1000 ==>
            out.state == AuthState(Some(AS.NewUser(reply)), true, false))
      && (later >= now + reply.expiresIn * 1000 ==>
            out.state == AuthState(None, false, false)
            && forall k :: k in AS.SessionKeys ==> k !in out.store)
  {
    var signedIn := AS.Login(s, now, reply, NoFault);
    assert Survives(NoFault, 4);
    assert signedIn.result.LoginOk?;
    AS.LoginThenCheck(s, now, reply, later, NoFault);
    var check := AS.IsAuthenticated(signedIn.store, later, NoFault);
    if later < now + reply.expiresIn * 1000 {
      assert check.authenticated && check.store == signedIn.store;
      assert AS.GetUserData(signedIn.store) == Some(AS.NewUser(reply));
    } else {
      assert check.store == AS.Logout(signedIn.store, NoFault).store;
    }
  }

  /** `logout`: clear the user only when the service reports success. */
  function Logout(st: AuthState, s: Store, fault: Fault): (out: LogoutStep)
    ensures out.result == AS.Logout(s, fault).result
    ensures out.store == AS.Logout(s, fault).store
    ensures out.result.LoggedOut? ==> out.state == AuthState(None, false, st.loading)
    ensures out.result.LogoutErr? ==> out.state == st
  {
    var signedOut := AS.Logout(s, fault);
    if signedOut.result.LoggedOut? then LogoutStep(st.(user := None, isAuthenticated := false), signedOut.store, signedOut.result)
    else LogoutStep(st, signedOut.store, signedOut.result)
  }

  /**
   * After a completed sign-out, a status check at any time, whatever storage
   * faults it meets, finds nobody signed in and leaves the store as it is.
   */
  lemma LogoutThenCheck(st: AuthState, s: Store, fault: Fault, now: nat, checkFault: Fault)
    requires Logout(st, s, fault).result.LoggedOut?
    ensures var out := Logout(st, s, fault);
      CheckAuthStatus(out.store, now, checkFault) == Checked(AuthState(None, false, false), out.store)
  {
    AS.LogoutEndsSession(s, now, checkFault);
    assert Logout(st, s, fault).store == AS.Logout(s, NoFault).store;
  }
}
