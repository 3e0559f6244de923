/**
 * The authentication service: sign-in against the identity provider, the
 * session kept under four storage keys, sign-out, the expiry check and the
 * `Authorization` header. The provider's answer, the clock and the storage
 * faults are parameters of each operation.
 */
module AuthService {
  import opened Wrappers
  import opened Text
  import opened Storage
  import opened UserCodec

  const TokenKey := "@jappy_auth_token"
  const UserKey := "@jappy_user_data"
  const RefreshKey := "@jappy_refresh_token"
  const ExpiresKey := "@jappy_token_expires"

  /** The four keys a session occupies. */
  const SessionKeys: set<string> := {TokenKey, UserKey, RefreshKey, ExpiresKey}

  const GenericLoginError := "Error al iniciar sesión"
  const LogoutError := "Error al cerrar sesión"

  /** The identity provider's answer to a sign-in request. */
  datatype IdentityReply =
    | Granted(
        kind: string,
        localId: string,
        email: string,
        displayName: Option<string>,
        idToken: string,
        registered: bool,
        refreshToken: string,
        expiresIn: nat)
      /** A failed request; `code` is the provider's `error.message`, when the response carries one. */
    | Refused(code: Option<string>)

  datatype LoginResult = LoginOk(user: UserData, token: string) | LoginErr(error: string)

  datatype LoginOutcome = LoginOutcome(store: Store, result: LoginResult)

  datatype LogoutResult = LoggedOut | LogoutErr(error: string)

  datatype LogoutOutcome = LogoutOutcome(store: Store, result: LogoutResult)

  datatype AuthCheck = AuthCheck(store: Store, authenticated: bool)

  /** The message a failed sign-in reports for the provider's error code. */
  function ErrorMessage(code: Option<string>): (m: string)
    ensures m != ""
    ensures !Truthy(code) ==> m == GenericLoginError
    ensures code == Some("EMAIL_NOT_FOUND") ==> m == "Email no registrado"
    ensures code == Some("INVALID_PASSWORD") ==> m == "Contraseña incorrecta"
    ensures code == Some("USER_DISABLED") ==> m == "Usuario deshabilitado"
    ensures code == Some("INVALID_LOGIN_CREDENTIALS") ==> m == "Credenciales inválidas"
    ensures Truthy(code) && code.value !in KnownCodes ==> m == code.value
  {
    if !Truthy(code) then GenericLoginError
    else
      match code.value
      case "EMAIL_NOT_FOUND" => "Email no registrado"
      case "INVALID_PASSWORD" => "Contraseña incorrecta"
      case "USER_DISABLED" => "Usuario deshabilitado"
      case "INVALID_LOGIN_CREDENTIALS" => "Credenciales inválidas"
      case other => other
  }

  const KnownCodes: set<string> :=
    {"EMAIL_NOT_FOUND", "INVALID_PASSWORD", "USER_DISABLED", "INVALID_LOGIN_CREDENTIALS"}

  /**
   * The display name kept for the user: the provider's, or else the part of
   * the e-mail address before its first `@`.
   */
  function DisplayName(email: string, given: Option<string>): (r: string)
    ensures Truthy(given) ==> r == given.value
    ensures !Truthy(given) ==> r <= email && '@' !in r && (|r| == |email| || email[|r|] == '@')
  {
    if Truthy(given) then given.value else BeforeFirst(email, '@')
  }

  /** The user record a granted sign-in keeps. */
  function NewUser(reply: IdentityReply): UserData
    requires reply.Granted?
  {
    UserData(reply.kind, reply.localId, reply.email, DisplayName(reply.email, reply.displayName), reply.registered)
  }

  /** The stored expiry: the decimal rendering of the instant the token lapses. */
  function ExpiryText(now: nat, expiresIn: nat): (t: string)
    ensures t != [] && IsDigits(t)
    ensures ParseInt(t) == Some(now + expiresIn * 1000)
  {
    var at := now + expiresIn * 1000;
    ParseIntOfNatToString(at);
    NatToString(at)
  }

  /** The four writes of a sign-in, in the order they are issued. */
  function LoginWrites(user: UserData, idToken: string, refreshToken: string, expiresAt: string): seq<Op> {
    [ SetItem(TokenKey, idToken),
      SetItem(UserKey, Encode(user)),
      SetItem(RefreshKey, refreshToken),
      SetItem(ExpiresKey, expiresAt) ]
  }

  /** The four removals of a sign-out, in the order they are issued. */
  const LogoutRemovals: seq<Op> :=
    [RemoveItem(TokenKey), RemoveItem(UserKey), RemoveItem(RefreshKey), RemoveItem(ExpiresKey)]

  lemma SessionKeysDistinct()
    ensures TokenKey != UserKey && TokenKey != RefreshKey && TokenKey != ExpiresKey
    ensures UserKey != RefreshKey && UserKey != ExpiresKey && RefreshKey != ExpiresKey
  {
    assert RefreshKey[7] != ExpiresKey[7];
  }

  lemma LoginWritesShape(user: UserData, idToken: string, refreshToken: string, expiresAt: string)
    ensures var ops := LoginWrites(user, idToken, refreshToken, expiresAt);
      && AllSets(ops) && KeysOf(ops) == SessionKeys
      && Written(ops) == map[TokenKey := idToken] + (map[UserKey := Encode(user)]
                          + (map[RefreshKey := refreshToken] + map[ExpiresKey := expiresAt]))
  {
    FourSets(TokenKey, UserKey, RefreshKey, ExpiresKey, idToken, Encode(user), refreshToken, expiresAt);
  }

  lemma LogoutRemovalsShape()
    ensures AllRemoves(LogoutRemovals) && KeysOf(LogoutRemovals) == SessionKeys
  {
    FourRemoves(TokenKey, UserKey, RefreshKey, ExpiresKey);
  }

  /** `getToken`: the stored token, or None (`null`) when no token is stored. */
  function GetToken(s: Store): (r: Option<string>)
    ensures r.Some? <==> TokenKey in s
    ensures r.Some? ==> r.value == s[TokenKey]
  {
    GetItem(s, TokenKey)
  }

  /** `getUserData`: the stored user record; None when it is missing, empty or unreadable. */
  function GetUserData(s: Store): (r: Option<UserData>)
    ensures r.None? <==> UserKey !in s || s[UserKey] == "" || Decode(s[UserKey]).None?
    ensures r.Some? ==> Decode(s[UserKey]) == r
  {
    match GetItem(s, UserKey)
    case None => None
    case Some(text) => if text == "" then None else Decode(text)
  }

  /** A stored encoded record reads back as that record, whatever else the store holds. */
  lemma GetUserDataOfEncode(s: Store, u: UserData)
    ensures GetUserData(s[UserKey := Encode(u)]) == Some(u)
  {
    DecodeEncode(u);
  }

  /**
   * Sign in with the provider's answer `reply` at time `now` (milliseconds).
   * A granted sign-in writes the session under the four keys; the first
   * storage call that throws turns the sign-in into a failure with the
   * generic message, keeping the writes before it.
   */
  function Login(s: Store, now: nat, reply: IdentityReply, fault: Fault): (out: LoginOutcome)
    ensures reply.Refused? ==> out == LoginOutcome(s, LoginErr(ErrorMessage(reply.code)))
    ensures reply.Granted? ==> (out.result.LoginOk? <==> Survives(fault, 4))
    ensures reply.Granted? && out.result.LoginErr? ==> out.result.error == GenericLoginError
    ensures forall k :: k !in SessionKeys ==> GetItem(out.store, k) == GetItem(s, k)
    ensures out.result.LoginOk? ==>
      && reply.Granted?
      && out.result == LoginOk(NewUser(reply), reply.idToken)
      && SessionWritten(out.store, NewUser(reply), reply.idToken, reply.refreshToken,
                        ExpiryText(now, reply.expiresIn))
  {
    match reply
    case Refused(code) => LoginOutcome(s, LoginErr(ErrorMessage(code)))
    case Granted(_, _, _, _, idToken, _, refreshToken, expiresIn) =>
      var user := NewUser(reply);
      var expiresAt := ExpiryText(now, expiresIn);
      var run := Run(s, LoginWrites(user, idToken, refreshToken, expiresAt), fault);
      LoginRun(s, user, idToken, refreshToken, expiresAt, fault);
      if run.completed then LoginOutcome(run.store, LoginOk(user, idToken))
      else LoginOutcome(run.store, LoginErr(GenericLoginError))
  }

  /** What the four sign-in writes leave in the store. */
  lemma LoginRun(s: Store, user: UserData, idToken: string, refreshToken: string, expiresAt: string, fault: Fault)
    ensures var run := Run(s, LoginWrites(user, idToken, refreshToken, expiresAt), fault);
      && (run.completed <==> Survives(fault, 4))
      && (forall k :: k !in SessionKeys ==> GetItem(run.store, k) == GetItem(s, k))
      && (run.completed ==> SessionWritten(run.store, user, idToken, refreshToken, expiresAt))
  {
    var ops := LoginWrites(user, idToken, refreshToken, expiresAt);
    LoginWritesShape(user, idToken, refreshToken, expiresAt);
    if Survives(fault, 4) {
      ApplySets(s, ops);
      LoginStore(s, user, idToken, refreshToken, expiresAt);
    }
  }

  /** The store holds the given session under the four keys. */
  predicate SessionWritten(st: Store, user: UserData, idToken: string, refreshToken: string, expiresAt: string) {
    && GetToken(st) == Some(idToken)
    && GetItem(st, RefreshKey) == Some(refreshToken)
    && GetUserData(st) == Some(user)
    && GetItem(st, ExpiresKey) == Some(expiresAt)
  }

  lemma LoginStore(s: Store, user: UserData, idToken: string, refreshToken: string, expiresAt: string)
    ensures SessionWritten(s + (map[TokenKey := idToken] + (map[UserKey := Encode(user)]
                                + (map[RefreshKey := refreshToken] + map[ExpiresKey := expiresAt]))),
                           user, idToken, refreshToken, expiresAt)
  {
    SessionKeysDistinct();
    DecodeEncode(user);
    OverlayFour(s, TokenKey, UserKey, RefreshKey, ExpiresKey, idToken, Encode(user), refreshToken, expiresAt);
  }

  /**
   * Sign out: remove the four session keys. A storage call that throws ends
   * the removals there and reports the sign-out error.
   */
  function Logout(s: Store, fault: Fault): (out: LogoutOutcome)
    ensures out.result.LoggedOut? <==> Survives(fault, 4)
    ensures out.result.LoggedOut? ==> out.store == s - SessionKeys
    ensures out.result.LogoutErr? ==> out.result.error == LogoutError
    ensures forall k :: k !in SessionKeys ==> GetItem(out.store, k) == GetItem(s, k)
  {
    LogoutRemovalsShape();
    ApplyRemoves(s, LogoutRemovals);
    var run := Run(s, LogoutRemovals, fault);
    if run.completed then LogoutOutcome(run.store, LoggedOut)
    else LogoutOutcome(run.store, LogoutErr(LogoutError))
  }

  /** Signing out twice leaves the store as signing out once. */
  lemma LogoutIdempotent(s: Store)
    ensures var once := Logout(s, NoFault).store;
      Logout(once, NoFault) == LogoutOutcome(once, LoggedOut)
  {
    var once := Logout(s, NoFault).store;
    assert once - SessionKeys == once;
  }

  /** `now >= parseInt(expiresAt)`; a comparison with NaN is false. */
  predicate Expired(now: nat, expiresAt: string) {
    match ParseInt(expiresAt)
    case Some(e) => now >= e
    case None => false
  }

  /**
   * Whether a live session is stored at time `now`. Only the token and the
   * expiry keys are consulted; an expired session is signed out (with the
   * storage fault `fault` applying to that sign-out).
   */
  function IsAuthenticated(s: Store, now: nat, fault: Fault): (out: AuthCheck)
    ensures !Truthy(GetToken(s)) || !Truthy(GetItem(s, ExpiresKey)) ==> out == AuthCheck(s, false)
    ensures Truthy(GetToken(s)) && Truthy(GetItem(s, ExpiresKey)) && Expired(now, s[ExpiresKey]) ==>
      out == AuthCheck(Logout(s, fault).store, false)
    ensures Truthy(GetToken(s)) && Truthy(GetItem(s, ExpiresKey)) && !Expired(now, s[ExpiresKey]) ==>
      out == AuthCheck(s, true)
  {
    var token := GetToken(s);
    var expiresAt := GetItem(s, ExpiresKey);
    if !Truthy(token) || !Truthy(expiresAt) then AuthCheck(s, false)
    else if Expired(now, expiresAt.value) then AuthCheck(Logout(s, fault).store, false)
    else AuthCheck(s, true)
  }

  /** The `Authorization` header for the stored token, when there is a non-empty one. */
  function GetAuthHeader(s: Store): (h: Option<string>)
    ensures h.Some? <==> Truthy(GetToken(s))
    ensures h.Some? ==> h.value == "Bearer " + s[TokenKey]
  {
    match GetToken(s)
    case Some(token) => if token != "" then Some("Bearer " + token) else None
    case None => None
  }

  /**
   * Expiry round trip: after a completed sign-in at `t0` with a non-empty
   * token, a check at `t` finds the session live exactly when
   * `t < t0 + expiresIn * 1000`, and then leaves the store as it was;
   * otherwise it signs the session out.
   */
  lemma LoginThenCheck(s: Store, t0: nat, reply: IdentityReply, t: nat, fault: Fault)
    requires reply.Granted? && reply.idToken != ""
    requires Login(s, t0, reply, NoFault).result.LoginOk?
    ensures var stored := Login(s, t0, reply, NoFault).store;
      var check := IsAuthenticated(stored, t, fault);
      && (check.authenticated <==> t < t0 + reply.expiresIn * 1000)
      && (check.authenticated ==> check.store == stored)
      && (!check.authenticated ==> check.store == Logout(stored, fault).store)
  {
    var stored := Login(s, t0, reply, NoFault).store;
    var e := ExpiryText(t0, reply.expiresIn);
    assert GetItem(stored, ExpiresKey) == Some(e);
    assert GetToken(stored) == Some(reply.idToken);
    assert Expired(t, e) <==> t >= t0 + reply.expiresIn * 1000;
    CheckWithSession(stored, t, fault, e);
  }

  /** With a token and a non-empty expiry stored, the check turns on that expiry alone. */
  lemma CheckWithSession(stored: Store, t: nat, fault: Fault, e: string)
    requires Truthy(GetToken(stored)) && GetItem(stored, ExpiresKey) == Some(e) && e != ""
    ensures var check := IsAuthenticated(stored, t, fault);
      && (check.authenticated <==> !Expired(t, e))
      && (check.authenticated ==> check.store == stored)
      && (!check.authenticated ==> check.store == Logout(stored, fault).store)
  {
  }

  /** After a completed sign-in the header carries the new token. */
  lemma LoginGrantsHeader(s: Store, now: nat, reply: IdentityReply)
    requires reply.Granted? && reply.idToken != ""
    requires Login(s, now, reply, NoFault).result.LoginOk?
    ensures GetAuthHeader(Login(s, now, reply, NoFault).store) == Some("Bearer " + reply.idToken)
  {
  }

  /**
   * A completed sign-in whose token is empty leaves no live session: the
   * check is false (with storage untouched) and there is no header.
   */
  lemma EmptyTokenNeverLive(s: Store, t0: nat, reply: IdentityReply, t: nat, fault: Fault)
    requires reply.Granted? && reply.idToken == ""
    requires Login(s, t0, reply, NoFault).result.LoginOk?
    ensures var stored := Login(s, t0, reply, NoFault).store;
      IsAuthenticated(stored, t, fault) == AuthCheck(stored, false) && GetAuthHeader(stored) == None
  {
    var stored := Login(s, t0, reply, NoFault).store;
    assert GetToken(stored) == Some("");
  }

  /** After a completed sign-out there is no session: no header and no live check. */
  lemma LogoutEndsSession(s: Store, now: nat, fault: Fault)
    ensures var gone := Logout(s, NoFault).store;
      GetAuthHeader(gone) == None && IsAuthenticated(gone, now, fault) == AuthCheck(gone, false)
      && GetUserData(gone) == None
  {
  }

  /**
   * A stored expiry that `parseInt` cannot read never expires: comparing the
   * clock with NaN is false, so such a session counts as live.
   */
  lemma UnreadableExpiryNeverExpires(s: Store, now: nat, fault: Fault)
    requires Truthy(GetToken(s)) && Truthy(GetItem(s, ExpiresKey))
    requires ParseInt(s[ExpiresKey]).None?
    ensures IsAuthenticated(s, now, fault) == AuthCheck(s, true)
  {
  }
}
