/** The authentication endpoints of the user backend
    (user_backend/app/api/v1/core/endpoints/auth.py), with the database as a
    user list and a token table, the password hash as a parameter, and the
    request reduced to the headers the endpoints read. */
module AuthEndpoints {
  import opened Wrappers
  import opened Text
  import opened UserModels
  import CoreSecurity
  import Base64Url
  import Schemas

  /** The errors the endpoints raise themselves, next to those of the
      security service they pass on. */
  datatype EndpointError =
    | UserAlreadyExists(email: string)
    | ValidationError(message: string)
    | Rejected(cause: CoreSecurity.AuthError)

  // ----- get_client_ip -----

  /** `get_client_ip`: the first hop of a non-empty X-Forwarded-For, trimmed;
      else a non-empty X-Real-IP as it is; else the host of the connection,
      "unknown" when there is none. Absent headers are `None`. */
  function ClientIp(forwardedFor: Option<string>, realIp: Option<string>, clientHost: Option<string>): (ip: string)
    ensures forwardedFor.Some? && forwardedFor.value != "" ==>
              ',' !in ip && Strip(ip) == ip && ip == Strip(BeforeFirst(forwardedFor.value, ','))
    ensures (forwardedFor.None? || forwardedFor.value == "") && realIp.Some? && realIp.value != "" ==>
              ip == realIp.value
    ensures (forwardedFor.None? || forwardedFor.value == "") && (realIp.None? || realIp.value == "") ==>
              ip == (if clientHost.Some? then clientHost.value else "unknown")
  {
    if forwardedFor.Some? && forwardedFor.value != "" then
      var hop := Strip(BeforeFirst(forwardedFor.value, ','));
      StripIdempotent(BeforeFirst(forwardedFor.value, ','));
      hop
    else if realIp.Some? && realIp.value != "" then realIp.value
    else if clientHost.Some? then clientHost.value
    else "unknown"
  }

  /** A proxy chain "client, proxy1, proxy2" yields the client, trimmed. */
  lemma ClientIpFirstHop(client: string, rest: string, realIp: Option<string>, clientHost: Option<string>)
    requires ',' !in client
    ensures ClientIp(Some(client + [','] + rest), realIp, clientHost) == Strip(client)
  {
    BeforeFirstOf(client, ',', rest);
  }

  /** A header naming one address, as a single proxy sends it, yields that
      address trimmed, whatever the other headers say. */
  lemma ClientIpSingleHop(hop: string, realIp: Option<string>, clientHost: Option<string>)
    requires ',' !in hop && hop != ""
    ensures ClientIp(Some(hop), realIp, clientHost) == Strip(hop)
  {
    var r := BeforeFirst(hop, ',');
    assert r == hop[..|r|] == hop;
  }

  // ----- login -----

  /** `TokenResponseSchema` */
  datatype TokenResponse = TokenResponse(accessToken: string, tokenType: string, expiresIn: int)

  /** `login`: authenticate (with the lockout bookkeeping), then store a new
      access token drawn from `entropy` under the primary key `rowId`; it
      lasts the configured `accessMinutes`. */
  function Login(fa: CoreSecurity.FailedAttempts, users: seq<User>, store: TokenStore, email: string,
                 password: string, verify: (string, string) -> bool, ip: string,
                 entropy: seq<Base64Url.byte>, rowId: int, now: int, accessMinutes: int)
    : (r: (Result<TokenResponse, CoreSecurity.AuthError>, CoreSecurity.FailedAttempts, TokenStore))
    requires |entropy| == CoreSecurity.DefaultEntropy
    ensures r.1 == CoreSecurity.AuthenticateUser(fa, users, email, password, verify, ip, now).1
    ensures CoreSecurity.AuthenticateUser(fa, users, email, password, verify, ip, now).0.Err? ==>
              r.0 == CoreSecurity.AuthenticateUser(fa, users, email, password, verify, ip, now).0.PropagateFailure()
              && r.2 == store
    ensures r.0.Ok? ==>
              var user := CoreSecurity.AuthenticateUser(fa, users, email, password, verify, ip, now).0.value;
              && r.0.value.tokenType == "bearer" && r.0.value.expiresIn == accessMinutes * 60
              && r.0.value.accessToken !in store && |r.0.value.accessToken| == 43
              && r.2 == store[r.0.value.accessToken := TokenRow(rowId, Some(user.id), now + accessMinutes * 60)]
    ensures r.0.Err? ==> r.2 == store
  {
    var (auth, fa') := CoreSecurity.AuthenticateUser(fa, users, email, password, verify, ip, now);
    if auth.Err? then (auth.PropagateFailure(), fa', store)
    else
      assert CoreSecurity.TokenLifetime("access", None, accessMinutes) == accessMinutes * 60;
      match CoreSecurity.CreateDatabaseToken(store, auth.value.id, "access", None, accessMinutes, entropy, rowId, now)
      case Err(e) => (Err(e), fa', store)
      case Ok((token, store')) =>
        (Ok(TokenResponse(token, "bearer", accessMinutes * 60)), fa', store')
  }

  /** The token a login hands out opens the service for exactly the advertised
      `expires_in` seconds, on behalf of the user who logged in. */
  lemma LoginTokenLasts(fa: CoreSecurity.FailedAttempts, users: seq<User>, store: TokenStore, email: string,
                        password: string, verify: (string, string) -> bool, ip: string,
                        entropy: seq<Base64Url.byte>, rowId: int, now: int, accessMinutes: int, later: int)
    requires |entropy| == CoreSecurity.DefaultEntropy
    requires Login(fa, users, store, email, password, verify, ip, entropy, rowId, now, accessMinutes).0.Ok?
    ensures var (res, _, store') := Login(fa, users, store, email, password, verify, ip, entropy, rowId, now, accessMinutes);
      var user := CoreSecurity.AuthenticateUser(fa, users, email, password, verify, ip, now).0.value;
      var checked := CoreSecurity.VerifyTokenAccess(store', res.value.accessToken, later).0;
      && (checked.Ok? <==> later < now + res.value.expiresIn)
      && (checked.Ok? ==> checked.value.userId == Some(user.id))
  {
  }

  // ----- register -----

  /** `user_type_id or 1`: an absent or zero type becomes the default type 1. */
  function TypeOrDefault(t: Option<int>): (r: int)
    ensures t.Some? && t.value != 0 ==> r == t.value
    ensures t.None? || t.value == 0 ==> r == 1
  {
    if t.Some? && t.value != 0 then t.value else 1
  }

  /** `register` catches everything but a taken email and a validation error
      and reports it as this one; a password the strength check refuses ends
      here too. */
  const RegistrationFailed := Rejected(CoreSecurity.DatabaseError("User registration failed"))

  /** `register` for a validated form: a taken email is refused before
      anything is written; otherwise the new row, with id `newId` and hash
      `hash(password)`, is appended. */
  function Register(users: seq<User>, form: Schemas.Registration, hash: string -> string, newId: int)
    : (r: Result<(User, seq<User>), EndpointError>)
    ensures (exists u :: u in users && u.email == form.email) ==> r == Err(UserAlreadyExists(form.email))
    ensures r.Ok? <==> (forall u :: u in users ==> u.email != form.email)
                       && CoreSecurity.ValidatePasswordStrength(form.password).Ok?
    ensures r.Ok? ==> r.value.1 == users + [r.value.0]
    ensures r.Ok? ==> var u := r.value.0;
              && u.id == newId && u.hashedPassword == hash(form.password)
              && u.firstName == Strip(form.firstName) && u.lastName == Strip(form.lastName)
              && u.email == Schemas.NormaliseEmail(form.email)
              && u.userTypeId == Some(TypeOrDefault(form.userTypeId))
    ensures r.Err? && (forall u :: u in users ==> u.email != form.email) ==>
              r == Err(RegistrationFailed)
  {
    if exists u :: u in users && u.email == form.email then Err(UserAlreadyExists(form.email))
    else match CoreSecurity.ValidatePasswordStrength(form.password)
      case Err(_) => Err(RegistrationFailed)
      case Ok(_) =>
        var u := User(newId, Strip(form.firstName), Strip(form.lastName), Schemas.NormaliseEmail(form.email),
                      hash(form.password), Some(TypeOrDefault(form.userTypeId)));
        Ok((u, users + [u]))
  }

  /** After the registration schema, the endpoint's checks and clean-up change
      nothing: a form the schema accepts is registered whenever its email is
      free, and stored exactly as the schema cleaned it. */
  lemma {:induction false} RegisterAfterSchema(users: seq<User>, firstName: string, lastName: string, email: string,
                                               password: string, confirm: string, userTypeId: Option<int>,
                                               isEmail: string -> bool, hash: string -> string, newId: int)
    requires Schemas.ValidateRegistration(firstName, lastName, email, password, confirm, userTypeId, isEmail).Ok?
    requires forall u :: u in users ==> u.email != Schemas.NormaliseEmail(email)
    ensures var form := Schemas.ValidateRegistration(firstName, lastName, email, password, confirm, userTypeId, isEmail).value;
      var r := Register(users, form, hash, newId);
      && r.Ok?
      && r.value.0 == User(newId, form.firstName, form.lastName, form.email, hash(password),
                           Some(if userTypeId.None? then 1 else userTypeId.value))
  {
    var form := Schemas.ValidateRegistration(firstName, lastName, email, password, confirm, userTypeId, isEmail).value;
    Schemas.PasswordRulesCompared(password, "Password");
    StripIdempotent(firstName);
    StripIdempotent(lastName);
    Schemas.NormaliseEmailIdempotent(email);
    assert userTypeId.Some? ==> userTypeId.value in {1, 2, 3};
  }

  // ----- profile update -----

  /** `update_current_user_profile` for a validated form: a new, different,
      non-empty email taken by another user is refused; otherwise exactly the
      given fields change. */
  function UpdateProfile(users: seq<User>, current: User, firstName: Option<string>,
                         lastName: Option<string>, email: Option<string>): (r: Result<User, EndpointError>)
    ensures r.Err? <==> email.Some? && email.value != "" && email.value != current.email
                        && exists u :: u in users && u.email == email.value && u.id != current.id
    ensures r.Err? ==> r.error == UserAlreadyExists(email.value)
    ensures r.Ok? ==> r.value.id == current.id && r.value.hashedPassword == current.hashedPassword
                      && r.value.userTypeId == current.userTypeId
    ensures r.Ok? ==> (firstName.None? ==> r.value.firstName == current.firstName)
                      && (firstName.Some? ==> r.value.firstName == Strip(firstName.value))
    ensures r.Ok? ==> (lastName.None? ==> r.value.lastName == current.lastName)
                      && (lastName.Some? ==> r.value.lastName == Strip(lastName.value))
    ensures r.Ok? ==> (email.None? ==> r.value.email == current.email)
                      && (email.Some? ==> r.value.email == Schemas.NormaliseEmail(email.value))
  {
    if email.Some? && email.value != "" && email.value != current.email
       && exists u :: u in users && u.email == email.value && u.id != current.id then
      Err(UserAlreadyExists(email.value))
    else
      Ok(current.(firstName := if firstName.Some? then Strip(firstName.value) else current.firstName,
                  lastName := if lastName.Some? then Strip(lastName.value) else current.lastName,
                  email := if email.Some? then Schemas.NormaliseEmail(email.value) else current.email))
  }

  /** An empty update changes nothing. */
  lemma UpdateNothing(users: seq<User>, current: User)
    ensures UpdateProfile(users, current, None, None, None) == Ok(current)
  {
  }

  /** Sending the same validated update twice leaves the profile as the first
      time: the schema hands over an already normalised address, so the
      second request changes no email and needs no uniqueness check. */
  lemma {:induction false} UpdateProfileIdempotent(users: seq<User>, current: User, firstName: Option<string>,
                                                   lastName: Option<string>, email: Option<string>)
    requires email.Some? ==> Schemas.NormaliseEmail(email.value) == email.value
    requires UpdateProfile(users, current, firstName, lastName, email).Ok?
    ensures var once := UpdateProfile(users, current, firstName, lastName, email).value;
      UpdateProfile(users, once, firstName, lastName, email) == Ok(once)
  {
    var once := UpdateProfile(users, current, firstName, lastName, email).value;
    if firstName.Some? { StripIdempotent(firstName.value); }
    if lastName.Some? { StripIdempotent(lastName.value); }
    assert email.Some? ==> once.email == email.value;
  }

  // ----- change_password -----

  /** `change_password`: the current password must verify, the new one pass
      the strength policy; then only the hash changes. */
  function ChangePassword(current: User, currentPassword: string, newPassword: string,
                          verify: (string, string) -> bool, hash: string -> string): (r: Result<User, EndpointError>)
    ensures !CoreSecurity.VerifyPassword(currentPassword, current.hashedPassword, verify) ==>
              r == Err(Rejected(CoreSecurity.InvalidCredentials(Some("Current password is incorrect"))))
    ensures r.Ok? <==> CoreSecurity.VerifyPassword(currentPassword, current.hashedPassword, verify)
                       && CoreSecurity.ValidatePasswordStrength(newPassword).Ok?
    ensures r.Ok? ==> r.value == current.(hashedPassword := hash(newPassword))
  {
    if !CoreSecurity.VerifyPassword(currentPassword, current.hashedPassword, verify) then
      Err(Rejected(CoreSecurity.InvalidCredentials(Some("Current password is incorrect"))))
    else match CoreSecurity.ValidatePasswordStrength(newPassword)
      case Err(e) => Err(Rejected(e))
      case Ok(_) => Ok(current.(hashedPassword := hash(newPassword)))
  }

  // ----- logout -----

  /** `logout`: the presented token, once it verifies, is deleted. */
  function Logout(store: TokenStore, token: string, now: int): (r: (Result<string, CoreSecurity.AuthError>, TokenStore))
    ensures CoreSecurity.VerifyTokenAccess(store, token, now).0.Err? ==>
              r.1 == CoreSecurity.VerifyTokenAccess(store, token, now).1 && r.0.Err?
    ensures r.0.Ok? <==> CoreSecurity.VerifyTokenAccess(store, token, now).0.Ok?
    ensures r.0.Ok? ==> r.0.value == "Logged out successfully" && r.1 == store - {token}
  {
    var (checked, after) := CoreSecurity.VerifyTokenAccess(store, token, now);
    if checked.Err? then (checked.PropagateFailure(), after)
    else (Ok("Logged out successfully"), after - {token})
  }

  /** A token logged out no longer opens anything. */
  lemma LoggedOutTokenRefused(store: TokenStore, token: string, now: int, later: int)
    requires Logout(store, token, now).0.Ok?
    ensures CoreSecurity.VerifyTokenAccess(Logout(store, token, now).1, token, later).0
            == Err(CoreSecurity.InvalidToken("Token not found"))
  {
  }

  /** The tokens of a user. */
  function TokensOf(store: TokenStore, userId: int): (ts: set<string>)
    ensures forall t :: t in ts <==> t in store && store[t].userId == Some(userId)
  {
    set t | t in store && store[t].userId == Some(userId)
  }

  /** `logout_all_sessions`: every token of the user goes, with a message
      counting them. */
  function LogoutAll(store: TokenStore, userId: int): (r: (string, TokenStore))
    ensures forall t :: t in r.1 <==> t in store && store[t].userId != Some(userId)
    ensures forall t :: t in r.1 ==> r.1[t] == store[t]
    ensures |r.1.Keys| <= |store.Keys|
    ensures r.0 == "Logged out from all sessions (" + NatToString(|store.Keys| - |r.1.Keys|) + " sessions revoked)"
  {
    var gone := TokensOf(store, userId);
    var kept := map t | t in store && store[t].userId != Some(userId) :: store[t];
    RemovedCount(store, kept, gone);
    ("Logged out from all sessions (" + NatToString(|gone|) + " sessions revoked)", kept)
  }

  /** Deleting the rows of `gone` removes that many keys. */
  lemma RemovedCount(store: TokenStore, kept: TokenStore, gone: set<string>)
    requires forall t :: t in kept <==> t in store && t !in gone
    requires gone <= store.Keys
    ensures |store.Keys| - |kept.Keys| == |gone|
  {
    assert kept.Keys == store.Keys - gone;
  }

  /** After logging out everywhere the user has no session left, and every
      other user's tokens verify exactly as before. */
  lemma LogoutAllScoped(store: TokenStore, userId: int, token: string, now: int)
    ensures TokensOf(LogoutAll(store, userId).1, userId) == {}
    ensures token in store && store[token].userId != Some(userId) ==>
              CoreSecurity.VerifyTokenAccess(LogoutAll(store, userId).1, token, now).0
              == CoreSecurity.VerifyTokenAccess(store, token, now).0
  {
  }

  // ----- sessions -----

  /** `token[:8] + "..."`: at most eight characters of the token are shown. */
  function TokenPreview(token: string): (p: string)
    ensures |p| == (if |token| < 8 then |token| else 8) + 3
    ensures StartsWith(token, p[..|p| - 3])
    ensures p[|p| - 3..] == "..."
  {
    (if |token| < 8 then token else token[..8]) + "..."
  }

  /** One entry of the sessions list. */
  datatype SessionInfo = SessionInfo(id: int, tokenPreview: string, expiresAt: int, isCurrent: bool)

  /** `get_user_sessions`: one entry per token of the user. The list order of
      the database is not fixed, so the entries form a set. `current` is the
      `_current_token` attribute of the user object. */
  function Sessions(store: TokenStore, userId: int, current: Option<string>): (r: set<SessionInfo>)
    ensures forall s :: s in r ==> exists t :: t in TokensOf(store, userId) && s.id == store[t].id
                                             && s.expiresAt == store[t].expireDate
                                             && s.tokenPreview == TokenPreview(t)
                                             && (s.isCurrent <==> current == Some(t))
    ensures forall t :: t in TokensOf(store, userId) ==>
              SessionInfo(store[t].id, TokenPreview(t), store[t].expireDate, current == Some(t)) in r
  {
    var r := set t | t in TokensOf(store, userId) :: SessionInfo(store[t].id, TokenPreview(t), store[t].expireDate, current == Some(t));
    assert forall t :: t in TokensOf(store, userId) ==>
             SessionInfo(store[t].id, TokenPreview(t), store[t].expireDate, current == Some(t)) in r;
    r
  }

  /** Without a current token, as when nothing sets `_current_token`, no
      entry is marked current. */
  lemma NoCurrentSession(store: TokenStore, userId: int)
    ensures forall s :: s in Sessions(store, userId, None) ==> !s.isCurrent
  {
  }

  // ----- revoke_session -----

  const SessionNotFound := "Session not found or does not belong to current user"

  /** The rows with primary key `sessionId` owned by the user: at most one, as
      the key is unique. */
  function Owned(store: TokenStore, userId: int, sessionId: int): (ts: set<string>)
    ensures forall t :: t in ts <==> t in store && store[t].id == sessionId && store[t].userId == Some(userId)
  {
    set t | t in store && store[t].id == sessionId && store[t].userId == Some(userId)
  }

  /** `revoke_session`: only a row with both the given id and the user as
      owner is deleted; otherwise nothing is. */
  function RevokeSession(store: TokenStore, userId: int, sessionId: int): (r: (Result<string, EndpointError>, TokenStore))
    ensures r.0.Ok? <==> exists t :: t in store && store[t].id == sessionId && store[t].userId == Some(userId)
    ensures r.0.Err? ==> r == (Err(ValidationError(SessionNotFound)), store)
    ensures r.0.Ok? ==> r.0.value == "Session revoked successfully"
    ensures forall t :: t in r.1 <==> t in store && !(store[t].id == sessionId && store[t].userId == Some(userId))
    ensures forall t :: t in r.1 ==> r.1[t] == store[t]
  {
    var hit := Owned(store, userId, sessionId);
    if hit == {} then (Err(ValidationError(SessionNotFound)), store)
    else (Ok("Session revoked successfully"), store - hit)
  }

  /** Primary keys are unique. */
  predicate RowIdsUnique(store: TokenStore) {
    forall t, u :: t in store && u in store && store[t].id == store[u].id ==> t == u
  }

  /** A successful revoke removes exactly one row, and it is one of the user's. */
  lemma RevokeRemovesOne(store: TokenStore, userId: int, sessionId: int)
    requires RowIdsUnique(store)
    requires RevokeSession(store, userId, sessionId).0.Ok?
    ensures var after := RevokeSession(store, userId, sessionId).1;
      exists t :: t in TokensOf(store, userId) && after == store - {t}
  {
    var hit := Owned(store, userId, sessionId);
    var t :| t in hit;
    assert hit == {t};
  }
}
