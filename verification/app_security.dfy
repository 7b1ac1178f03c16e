/** The older security helpers of the user backend (user_backend/app/security.py):
    token rendering, the access check that leaves expired tokens in place, the
    current user and the admin check, each failing with an HTTP error. */
module AppSecurity {
  import opened Wrappers
  import opened Seqs
  import opened UserModels
  import Base64Url
  import CoreSecurity

  const DefaultEntropy: nat := 32

  const TokenNotFound := HttpError(401, "Token not found")
  const TokenHasExpired := HttpError(401, "Token has expired")
  const UserNotFound := HttpError(401, "User not found")
  const AdminNotConfigured := HttpError(500, "Admin user type not configured")
  const NotAdmin := HttpError(403, "Not authorized. Admin privileges required.")

  /** `token_urlsafe` for the drawn bytes `entropy`: the unpadded URL-safe
      base64 text, whose length fixes the number of bytes. */
  function TokenUrlsafe(entropy: seq<Base64Url.byte>): (t: string)
    ensures t == Base64Url.Unpadded(entropy)
    ensures |t| == (4 * |entropy| + 2) / 3
    ensures |entropy| == DefaultEntropy ==> |t| == 43
  {
    Base64Url.TokenTextUnpadded(entropy);
    Base64Url.UnpaddedLength(entropy);
    Base64Url.TokenText(entropy)
  }

  /** Distinct draws never render to the same token. */
  lemma TokenUrlsafeInjective(a: seq<Base64Url.byte>, b: seq<Base64Url.byte>)
    requires TokenUrlsafe(a) == TokenUrlsafe(b)
    ensures a == b
  {
    Base64Url.TokenTextInjective(a, b);
  }

  /** `verify_token_access`: unlike the service's check, an expired token is
      rejected but stays in the table, and an empty string is simply looked up. */
  function VerifyTokenAccess(store: TokenStore, token: string, now: int): (r: Result<TokenRow, HttpError>)
    ensures token !in store ==> r == Err(TokenNotFound)
    ensures token in store && store[token].expireDate <= now ==> r == Err(TokenHasExpired)
    ensures r.Ok? <==> token in store && store[token].expireDate > now
    ensures r.Ok? ==> r.value == store[token]
  {
    if token !in store then Err(TokenNotFound)
    else if store[token].expireDate <= now then Err(TokenHasExpired)
    else Ok(store[token])
  }

  /** Both checks accept the same non-empty tokens. The service's check deletes
      an expired token, so asking again reports it missing; this one keeps it
      and reports it expired every time. */
  lemma KeepVersusDelete(store: TokenStore, token: string, now: int)
    requires token != ""
    ensures VerifyTokenAccess(store, token, now).Ok? <==> CoreSecurity.VerifyTokenAccess(store, token, now).0.Ok?
    ensures token in store && store[token].expireDate <= now ==>
              var after := CoreSecurity.VerifyTokenAccess(store, token, now).1;
              && CoreSecurity.VerifyTokenAccess(after, token, now).0
                   == Err(CoreSecurity.InvalidToken("Token not found"))
              && VerifyTokenAccess(store, token, now) == Err(TokenHasExpired)
  {
  }

  /** `get_current_user`: the user the valid token belongs to. */
  function GetCurrentUser(store: TokenStore, users: seq<User>, token: string, now: int): (r: Result<User, HttpError>)
    ensures VerifyTokenAccess(store, token, now).Err? ==> r == VerifyTokenAccess(store, token, now).PropagateFailure()
    ensures r.Ok? <==> VerifyTokenAccess(store, token, now).Ok? && UserById(users, store[token].userId).Some?
    ensures r.Ok? ==> r.value in users && Some(r.value.id) == store[token].userId
    ensures VerifyTokenAccess(store, token, now).Ok? && r.Err? ==> r.error == UserNotFound
  {
    var row :- VerifyTokenAccess(store, token, now);
    match UserById(users, row.userId)
    case None => Err(UserNotFound)
    case Some(u) => Ok(u)
  }

  /** `get_current_admin`: the type named "Admin" (names are unique) must be
      the user's type. */
  function GetCurrentAdmin(userTypes: seq<UserType>, user: User): (r: Result<User, HttpError>)
    ensures (forall i :: 0 <= i < |userTypes| ==> userTypes[i].name != "Admin") ==> r == Err(AdminNotConfigured)
    ensures r.Ok? <==> exists t :: t in userTypes && t.name == "Admin" && user.userTypeId == Some(t.id)
                                   && FirstWhere(userTypes, (t: UserType) => t.name == "Admin") == Some(t)
    ensures r.Ok? ==> r.value == user
    ensures r.Err? ==> r.error == AdminNotConfigured || r.error == NotAdmin
    ensures r.Err? && r.error == NotAdmin ==> exists i :: 0 <= i < |userTypes| && userTypes[i].name == "Admin"
  {
    match FirstWhere(userTypes, (t: UserType) => t.name == "Admin")
    case None => Err(AdminNotConfigured)
    case Some(adminType) =>
      assert adminType in Filter((t: UserType) => t.name == "Admin", userTypes);
      if user.userTypeId != Some(adminType.id) then Err(NotAdmin)
      else Ok(user)
  }
}
