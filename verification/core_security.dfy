/** The security service of the user backend (user_backend/app/core/security.py):
    the password policy, token rendering, access-token checks over the token
    table, the brute-force lockout and the admin check. The database tables are
    maps and sequences, the clock is `now` in whole seconds, and the bcrypt
    check and the random bytes are parameters. */
module CoreSecurity {
  import opened Wrappers
  import opened Text
  import opened Seqs
  import opened UserModels
  import Base64Url

  /** The exception classes raised here. Those raised without a message carry
      `None`: their default texts live in core/exceptions.py, which is not part
      of this model. */
  datatype AuthError =
    | InvalidCredentials(reason: Option<string>)
    | InvalidToken(message: string)
    | TokenExpired(message: string)
    | AccountLocked
    | UserNotFound(userId: Option<int>)
    | AuthorizationError(message: string)
    | InsufficientPermissions(message: string)
    | DatabaseError(message: string)

  const DefaultEntropy: nat := 32
  const RefreshTokenExpireDays: int := 30
  const MaxFailedAttempts: nat := 5
  /** LOCKOUT_DURATION_MINUTES = 15, in seconds. */
  const LockoutSeconds: int := 900

  // ----- validate_password_strength -----

  /** Some character of `s` is in the class `cls` (`any(cls(c) for c in s)`). */
  function AnyChar(s: string, cls: char -> bool): (b: bool)
    ensures b <==> exists i :: 0 <= i < |s| && cls(s[i])
  {
    if |s| == 0 then false
    else if cls(s[0]) then true
    else
      var b := AnyChar(s[1..], cls);
      assert forall i :: 1 <= i < |s| ==> s[i] == s[1..][i - 1];
      b
  }

  /** An upper-case letter, a lower-case letter and a digit all occur. */
  predicate HasAllClasses(password: string) {
    && (exists i :: 0 <= i < |password| && IsUpper(password[i]))
    && (exists i :: 0 <= i < |password| && IsLower(password[i]))
    && (exists i :: 0 <= i < |password| && IsDigit(password[i]))
  }

  const PasswordRequired := "Password is required"
  const PasswordTooShort := "Password must be at least 8 characters long"
  const PasswordTooLong := "Password must be less than 128 characters"
  const PasswordClasses := "Password must contain at least one uppercase letter, one lowercase letter, and one number"

  /** `validate_password_strength`: the checks in order, the first failing one
      giving the message. */
  function ValidatePasswordStrength(password: string): (r: Result<bool, AuthError>)
    ensures r.Ok? <==> 8 <= |password| <= 128 && HasAllClasses(password)
    ensures r.Ok? ==> r.value
    ensures |password| == 0 ==> r == Err(InvalidCredentials(Some(PasswordRequired)))
    ensures 0 < |password| < 8 ==> r == Err(InvalidCredentials(Some(PasswordTooShort)))
    ensures |password| > 128 ==> r == Err(InvalidCredentials(Some(PasswordTooLong)))
    ensures 8 <= |password| <= 128 && !HasAllClasses(password) ==>
              r == Err(InvalidCredentials(Some(PasswordClasses)))
  {
    if |password| == 0 then Err(InvalidCredentials(Some(PasswordRequired)))
    else if |password| < 8 then Err(InvalidCredentials(Some(PasswordTooShort)))
    else if |password| > 128 then Err(InvalidCredentials(Some(PasswordTooLong)))
    else if !(AnyChar(password, IsUpper) && AnyChar(password, IsLower) && AnyChar(password, IsDigit)) then
      Err(InvalidCredentials(Some(PasswordClasses)))
    else Ok(true)
  }

  // ----- tokens -----

  /** `generate_secure_token` for the drawn bytes `entropy`. */
  function GenerateSecureToken(entropy: seq<Base64Url.byte>): (t: string)
    ensures forall i :: 0 <= i < |t| ==> Base64Url.IsUrlChar(t[i])
    ensures |t| == (4 * |entropy| + 2) / 3
    ensures |entropy| == DefaultEntropy ==> |t| == 43
  {
    Base64Url.TokenTextUnpadded(entropy);
    Base64Url.UnpaddedLength(entropy);
    Base64Url.TokenText(entropy)
  }

  /** The lifetime `create_database_token` gives a token, in seconds.
      `accessMinutes` is the configured `ACCESS_TOKEN_EXPIRE_MINUTES`, a
      required setting, so the fallback of 30 never applies. */
  function TokenLifetime(tokenType: string, expireMinutes: Option<int>, accessMinutes: int): (s: int)
    ensures expireMinutes.Some? ==> s == expireMinutes.value * 60
    ensures expireMinutes.None? && tokenType == "access" ==> s == accessMinutes * 60
    ensures expireMinutes.None? && tokenType != "access" ==> s == 30 * 24 * 3600
  {
    var minutes := if expireMinutes.Some? then expireMinutes.value
                   else if tokenType == "access" then accessMinutes
                   else RefreshTokenExpireDays * 24 * 60;
    minutes * 60
  }

  /** `create_database_token`: a new row for the token rendered from `entropy`;
      a token string already in the table violates its uniqueness and the
      insert fails. */
  function CreateDatabaseToken(store: TokenStore, userId: int, tokenType: string,
                               expireMinutes: Option<int>, accessMinutes: int, entropy: seq<Base64Url.byte>,
                               rowId: int, now: int): (r: Result<(string, TokenStore), AuthError>)
    requires |entropy| == DefaultEntropy
    ensures r.Ok? <==> GenerateSecureToken(entropy) !in store
    ensures r.Ok? ==> r.value.0 == GenerateSecureToken(entropy)
                      && r.value.1 == store[r.value.0 := TokenRow(rowId, Some(userId), now + TokenLifetime(tokenType, expireMinutes, accessMinutes))]
    ensures r.Err? ==> r.error == DatabaseError("Failed to create authentication token")
  {
    var token := GenerateSecureToken(entropy);
    if token in store then Err(DatabaseError("Failed to create authentication token"))
    else Ok((token, store[token := TokenRow(rowId, Some(userId), now + TokenLifetime(tokenType, expireMinutes, accessMinutes))]))
  }

  /** `verify_token_access`: an expired token is deleted as it is rejected. */
  function VerifyTokenAccess(store: TokenStore, token: string, now: int): (r: (Result<TokenRow, AuthError>, TokenStore))
    ensures token == "" ==> r == (Err(InvalidToken("Token is required")), store)
    ensures token != "" && token !in store ==> r == (Err(InvalidToken("Token not found")), store)
    ensures r.0.Ok? <==> token != "" && token in store && store[token].expireDate > now
    ensures r.0.Ok? ==> r.0.value == store[token] && r.1 == store
    ensures token != "" && token in store && store[token].expireDate <= now ==>
              r.0 == Err(TokenExpired("Token has expired")) && r.1 == store - {token}
  {
    if token == "" then (Err(InvalidToken("Token is required")), store)
    else if token !in store then (Err(InvalidToken("Token not found")), store)
    else if store[token].expireDate <= now then (Err(TokenExpired("Token has expired")), store - {token})
    else (Ok(store[token]), store)
  }

  /** A token accepted once stays accepted until its expiry, and is rejected
      and deleted from then on. */
  lemma CreatedTokenLifetime(store: TokenStore, userId: int, tokenType: string,
                             expireMinutes: Option<int>, accessMinutes: int, entropy: seq<Base64Url.byte>,
                             rowId: int, now: int, later: int)
    requires |entropy| == DefaultEntropy
    requires CreateDatabaseToken(store, userId, tokenType, expireMinutes, accessMinutes, entropy, rowId, now).Ok?
    ensures var (token, s) := CreateDatabaseToken(store, userId, tokenType, expireMinutes, accessMinutes, entropy, rowId, now).value;
      var (res, after) := VerifyTokenAccess(s, token, later);
      && (res.Ok? <==> later < now + TokenLifetime(tokenType, expireMinutes, accessMinutes))
      && (res.Ok? ==> res.value.userId == Some(userId) && after == s)
      && (res.Err? ==> token !in after)
  {
    var token := CreateDatabaseToken(store, userId, tokenType, expireMinutes, accessMinutes, entropy, rowId, now).value.0;
    assert |token| == 43;
  }

  /** `cleanup_expired_tokens`: every row with `expire_date <= now` goes. */
  function CleanupExpiredTokens(store: TokenStore, now: int): (r: TokenStore)
    ensures forall t :: t in r <==> t in store && store[t].expireDate > now
    ensures forall t :: t in r ==> r[t] == store[t]
  {
    map t | t in store && store[t].expireDate > now :: store[t]
  }

  /** Cleaning up changes the outcome of no access check: a token that still
      verifies was kept, and a removed one would have been rejected anyway. */
  lemma CleanupPreservesVerification(store: TokenStore, now: int, token: string, later: int)
    requires later >= now
    ensures VerifyTokenAccess(CleanupExpiredTokens(store, now), token, later).0.Ok?
            <==> VerifyTokenAccess(store, token, later).0.Ok?
  {
  }

  // ----- get_current_user -----

  /** `get_current_user` after `get_current_token`: the owner of the token. */
  function CurrentUser(store: TokenStore, users: seq<User>, token: string, now: int): (r: (Result<User, AuthError>, TokenStore))
    ensures r.1 == VerifyTokenAccess(store, token, now).1
    ensures VerifyTokenAccess(store, token, now).0.Err? ==> r.0 == VerifyTokenAccess(store, token, now).0.PropagateFailure()
    ensures r.0.Ok? ==> VerifyTokenAccess(store, token, now).0.Ok?
                        && r.0.value in users && Some(r.0.value.id) == store[token].userId
    ensures VerifyTokenAccess(store, token, now).0.Ok? && r.0.Err? ==>
              r.0.error == UserNotFound(store[token].userId)
              && forall i :: 0 <= i < |users| ==> Some(users[i].id) != store[token].userId
  {
    var (checked, after) := VerifyTokenAccess(store, token, now);
    if checked.Err? then (checked.PropagateFailure(), after)
    else match UserById(users, checked.value.userId)
      case None => (Err(UserNotFound(checked.value.userId)), after)
      case Some(u) => (Ok(u), after)
  }

  // ----- brute-force protection -----

  /** One failed login: when and from where. */
  datatype Attempt = Attempt(timestamp: int, ipAddress: string)

  /** The entry of `failed_attempts` for one email. */
  datatype LockRecord = LockRecord(attempts: seq<Attempt>, lockedUntil: Option<int>)

  /** `failed_attempts`, keyed by email. */
  type FailedAttempts = map<string, LockRecord>

  /** The attempts strictly after `cutoff`. */
  function After(attempts: seq<Attempt>, cutoff: int): (r: seq<Attempt>)
    ensures forall i :: 0 <= i < |r| ==> r[i].timestamp > cutoff
    ensures forall a :: a in r <==> a in attempts && a.timestamp > cutoff
  {
    Filter((a: Attempt) => a.timestamp > cutoff, attempts)
  }

  lemma AfterAppend(a: seq<Attempt>, b: seq<Attempt>, cutoff: int)
    ensures After(a + b, cutoff) == After(a, cutoff) + After(b, cutoff)
  {
    FilterAppend((x: Attempt) => x.timestamp > cutoff, a, b);
  }

  /** The record of an email, empty when there is none. */
  function RecordOf(fa: FailedAttempts, email: string): LockRecord {
    if email in fa then fa[email] else LockRecord([], None)
  }

  /** `_record_failed_attempt` at time `now`: the new attempt is appended, the
      attempts older than the window dropped, and five or more lock the account
      for the window from now. */
  function RecordFailedAttempt(fa: FailedAttempts, email: string, ip: string, now: int): (r: FailedAttempts)
    ensures email in r
    ensures r[email].attempts == After(RecordOf(fa, email).attempts, now - LockoutSeconds) + [Attempt(now, ip)]
    ensures |r[email].attempts| >= MaxFailedAttempts ==> r[email].lockedUntil == Some(now + LockoutSeconds)
    ensures |r[email].attempts| < MaxFailedAttempts ==> r[email].lockedUntil == RecordOf(fa, email).lockedUntil
    ensures forall e :: e != email ==> (e in r <==> e in fa) && (e in fa ==> r[e] == fa[e])
  {
    var prev := RecordOf(fa, email);
    var cutoff := now - LockoutSeconds;
    var attempts := After(prev.attempts + [Attempt(now, ip)], cutoff);
    AfterAppend(prev.attempts, [Attempt(now, ip)], cutoff);
    assert After([Attempt(now, ip)], cutoff) == [Attempt(now, ip)];
    var locked := if |attempts| >= MaxFailedAttempts then Some(now + LockoutSeconds) else prev.lockedUntil;
    fa[email := LockRecord(attempts, locked)]
  }

  /** `_is_account_locked` at time `now`, with the state it leaves: an expired
      lock is cleared and reported as unlocked. */
  function IsAccountLocked(fa: FailedAttempts, email: string, now: int): (r: (bool, FailedAttempts))
    ensures r.0 <==> email in fa && fa[email].lockedUntil.Some? && now <= fa[email].lockedUntil.value
    ensures email in fa && fa[email].lockedUntil.Some? && now > fa[email].lockedUntil.value ==>
              r.1 == fa[email := fa[email].(lockedUntil := None)]
    ensures !(email in fa && fa[email].lockedUntil.Some? && now > fa[email].lockedUntil.value) ==> r.1 == fa
  {
    if email !in fa then (false, fa)
    else match fa[email].lockedUntil
      case None => (false, fa)
      case Some(until) =>
        if now > until then (false, fa[email := fa[email].(lockedUntil := None)])
        else (true, fa)
  }

  /** `_clear_failed_attempts` */
  function ClearFailedAttempts(fa: FailedAttempts, email: string): (r: FailedAttempts)
    ensures email !in r
    ensures forall e :: e != email ==> (e in r <==> e in fa) && (e in fa ==> r[e] == fa[e])
  {
    fa - {email}
  }

  /** `verify_password`: an empty password or hash never matches, otherwise
      the hash check `verify` decides. */
  predicate VerifyPassword(plain: string, hashed: string, verify: (string, string) -> bool) {
    plain != "" && hashed != "" && verify(plain, hashed)
  }

  /** `authenticate_user` at time `now` from `ip`. */
  function AuthenticateUser(fa: FailedAttempts, users: seq<User>, email: string, password: string,
                            verify: (string, string) -> bool, ip: string, now: int): (r: (Result<User, AuthError>, FailedAttempts))
    // a locked account is turned away before any lookup, and nothing is recorded
    ensures IsAccountLocked(fa, email, now).0 ==> r == (Err(AccountLocked), fa)
    ensures !IsAccountLocked(fa, email, now).0 ==>
              var checked := IsAccountLocked(fa, email, now).1;
              var user := FirstWhere(users, (u: User) => u.email == email);
              && (r.0.Ok? <==> user.Some? && VerifyPassword(password, user.value.hashedPassword, verify))
              && (r.0.Ok? ==> r.0.value == user.value && r.1 == ClearFailedAttempts(checked, email))
              && (r.0.Err? ==> r.0 == Err(InvalidCredentials(None))
                               && r.1 == RecordFailedAttempt(checked, email, ip, now))
  {
    var (locked, checked) := IsAccountLocked(fa, email, now);
    if locked then (Err(AccountLocked), checked)
    else match FirstWhere(users, (u: User) => u.email == email)
      case None => (Err(InvalidCredentials(None)), RecordFailedAttempt(checked, email, ip, now))
      case Some(user) =>
        if !VerifyPassword(password, user.hashedPassword, verify) then
          (Err(InvalidCredentials(None)), RecordFailedAttempt(checked, email, ip, now))
        else (Ok(user), ClearFailedAttempts(checked, email))
  }

  /** A failed login adds exactly one attempt to the email's window, and
      touches no other email. */
  lemma FailedLoginRecordsOne(fa: FailedAttempts, users: seq<User>, email: string, password: string,
                              verify: (string, string) -> bool, ip: string, now: int)
    requires !IsAccountLocked(fa, email, now).0
    requires AuthenticateUser(fa, users, email, password, verify, ip, now).0.Err?
    ensures var after := AuthenticateUser(fa, users, email, password, verify, ip, now).1;
      && after[email].attempts == After(RecordOf(fa, email).attempts, now - LockoutSeconds) + [Attempt(now, ip)]
      && forall e :: e != email ==> (e in after <==> e in fa) && (e in fa ==> after[e] == fa[e])
  {
  }

  /** Failures at the given non-decreasing times, one after the other. */
  function RecordAll(fa: FailedAttempts, email: string, ip: string, times: seq<int>): FailedAttempts
    decreases |times|
  {
    if |times| == 0 then fa
    else RecordAll(RecordFailedAttempt(fa, email, ip, times[0]), email, ip, times[1..])
  }

  predicate NonDecreasing(times: seq<int>) {
    forall i, j :: 0 <= i <= j < |times| ==> times[i] <= times[j]
  }

  /** The timestamps of a list of attempts. */
  function Stamps(attempts: seq<Attempt>): (ts: seq<int>)
    ensures |ts| == |attempts|
    ensures forall i :: 0 <= i < |ts| ==> ts[i] == attempts[i].timestamp
  {
    if |attempts| == 0 then [] else [attempts[0].timestamp] + Stamps(attempts[1..])
  }

  /** While all failures stay within one window, every one of them is kept. */
  lemma {:induction false} RecordAllKeeps(fa: FailedAttempts, email: string, ip: string, times: seq<int>, first: int)
    requires NonDecreasing(times)
    requires forall i :: 0 <= i < |times| ==> first <= times[i] < first + LockoutSeconds
    requires forall a :: a in RecordOf(fa, email).attempts ==> first <= a.timestamp
    ensures Stamps(RecordOf(RecordAll(fa, email, ip, times), email).attempts)
            == Stamps(RecordOf(fa, email).attempts) + times
    decreases |times|
  {
    if |times| > 0 {
      var prev := RecordOf(fa, email).attempts;
      var next := RecordFailedAttempt(fa, email, ip, times[0]);
      RecordOneKept(fa, email, ip, times[0], first);
      WindowTail(times, first);
      RecordAllKeeps(next, email, ip, times[1..], first);
      assert RecordAll(fa, email, ip, times) == RecordAll(next, email, ip, times[1..]);
      AppendHead(Stamps(prev), times);
    }
  }

  lemma AppendHead(a: seq<int>, s: seq<int>)
    requires |s| > 0
    ensures a + [s[0]] + s[1..] == a + s
  {
    assert s == [s[0]] + s[1..];
  }

  /** One failure inside the window keeps every earlier one. */
  lemma RecordOneKept(fa: FailedAttempts, email: string, ip: string, t: int, first: int)
    requires first <= t < first + LockoutSeconds
    requires forall a :: a in RecordOf(fa, email).attempts ==> first <= a.timestamp
    ensures Stamps(RecordOf(RecordFailedAttempt(fa, email, ip, t), email).attempts)
            == Stamps(RecordOf(fa, email).attempts) + [t]
    ensures forall a :: a in RecordOf(RecordFailedAttempt(fa, email, ip, t), email).attempts ==> first <= a.timestamp
  {
    var prev := RecordOf(fa, email).attempts;
    KeepAll(prev, t - LockoutSeconds);
    StampsAppend(prev, [Attempt(t, ip)]);
    var now := RecordOf(RecordFailedAttempt(fa, email, ip, t), email).attempts;
    assert now == prev + [Attempt(t, ip)];
    forall a | a in now
      ensures first <= a.timestamp
    {
      assert a in prev || a == Attempt(t, ip);
    }
  }

  /** The rest of a window's failures still lie in the window, in order. */
  lemma WindowTail(times: seq<int>, first: int)
    requires |times| > 0 && NonDecreasing(times)
    requires forall i :: 0 <= i < |times| ==> first <= times[i] < first + LockoutSeconds
    ensures NonDecreasing(times[1..])
    ensures forall i :: 0 <= i < |times| - 1 ==> first <= times[1..][i] < first + LockoutSeconds
  {
    assert forall i :: 0 <= i < |times| - 1 ==> times[1..][i] == times[i + 1];
  }

  lemma {:induction false} KeepAll(attempts: seq<Attempt>, cutoff: int)
    requires forall a :: a in attempts ==> a.timestamp > cutoff
    ensures After(attempts, cutoff) == attempts
  {
    if |attempts| > 0 {
      KeepAll(attempts[1..], cutoff);
      assert attempts == [attempts[0]] + attempts[1..];
      AfterAppend([attempts[0]], attempts[1..], cutoff);
    }
  }

  lemma StampsAppend(a: seq<Attempt>, b: seq<Attempt>)
    ensures Stamps(a + b) == Stamps(a) + Stamps(b)
  {
  }

  /** Five failures within fifteen minutes lock the account until fifteen
      minutes after the fifth. */
  lemma {:induction false} FiveFailuresLock(fa: FailedAttempts, email: string, ip: string, times: seq<int>)
    requires email !in fa
    requires |times| == MaxFailedAttempts
    requires NonDecreasing(times)
    requires times[4] < times[0] + LockoutSeconds
    ensures var after := RecordAll(fa, email, ip, times);
      email in after && after[email].lockedUntil == Some(times[4] + LockoutSeconds)
  {
    var first4, t := times[..4], times[4];
    assert first4 + [t] == times;
    assert first4[0] == times[0];
    FourThenOne(fa, email, ip, first4, t);
  }

  lemma FourThenOne(fa: FailedAttempts, email: string, ip: string, first4: seq<int>, t: int)
    requires email !in fa
    requires |first4| == 4
    requires NonDecreasing(first4 + [t])
    requires t < first4[0] + LockoutSeconds
    ensures var after := RecordAll(fa, email, ip, first4 + [t]);
      email in after && after[email].lockedUntil == Some(t + LockoutSeconds)
  {
    var before := RecordAll(fa, email, ip, first4);
    FourKept(fa, email, ip, first4, t);
    FifthLocks(before, email, ip, t);
    LastOfFive(fa, email, ip, first4, t);
  }

  lemma LastOfFive(fa: FailedAttempts, email: string, ip: string, first4: seq<int>, t: int)
    ensures RecordAll(fa, email, ip, first4 + [t])
            == RecordFailedAttempt(RecordAll(fa, email, ip, first4), email, ip, t)
  {
    RecordAllSplit(fa, email, ip, first4, [t]);
    RecordAllOne(RecordAll(fa, email, ip, first4), email, ip, t);
  }

  lemma FourKept(fa: FailedAttempts, email: string, ip: string, first4: seq<int>, t: int)
    requires email !in fa
    requires |first4| == 4
    requires NonDecreasing(first4 + [t])
    requires t < first4[0] + LockoutSeconds
    ensures var prev := RecordOf(RecordAll(fa, email, ip, first4), email).attempts;
      |prev| == 4 && forall a :: a in prev ==> a.timestamp > t - LockoutSeconds
  {
    var times := first4 + [t];
    assert forall i :: 0 <= i < |first4| ==> first4[i] == times[i];
    assert NonDecreasing(first4);
    assert times[4] == t;
    forall i | 0 <= i < |first4|
      ensures first4[0] <= first4[i] < first4[0] + LockoutSeconds
    {
      assert times[0] <= times[i] <= times[4];
    }
    RecordAllKeeps(fa, email, ip, first4, first4[0]);
    StampsAbove(RecordOf(RecordAll(fa, email, ip, first4), email).attempts, t - LockoutSeconds);
  }

  lemma RecordAllOne(fa: FailedAttempts, email: string, ip: string, t: int)
    ensures RecordAll(fa, email, ip, [t]) == RecordFailedAttempt(fa, email, ip, t)
  {
    assert [t][1..] == [];
  }

  /** A failure with four others still in the window locks the account. */
  lemma FifthLocks(fa: FailedAttempts, email: string, ip: string, now: int)
    requires |RecordOf(fa, email).attempts| == 4
    requires forall a :: a in RecordOf(fa, email).attempts ==> a.timestamp > now - LockoutSeconds
    ensures RecordFailedAttempt(fa, email, ip, now)[email].lockedUntil == Some(now + LockoutSeconds)
  {
    KeepAll(RecordOf(fa, email).attempts, now - LockoutSeconds);
  }

  lemma StampsAbove(attempts: seq<Attempt>, cutoff: int)
    requires forall i :: 0 <= i < |Stamps(attempts)| ==> Stamps(attempts)[i] > cutoff
    ensures forall a :: a in attempts ==> a.timestamp > cutoff
  {
    forall a | a in attempts
      ensures a.timestamp > cutoff
    {
      var k :| 0 <= k < |attempts| && attempts[k] == a;
      assert Stamps(attempts)[k] == a.timestamp;
    }
  }

  lemma {:induction false} DropAll(attempts: seq<Attempt>, cutoff: int)
    requires forall a :: a in attempts ==> a.timestamp <= cutoff
    ensures After(attempts, cutoff) == []
  {
    if |attempts| > 0 {
      DropAll(attempts[1..], cutoff);
      assert attempts == [attempts[0]] + attempts[1..];
      AfterAppend([attempts[0]], attempts[1..], cutoff);
    }
  }

  lemma {:induction false} RecordAllSplit(fa: FailedAttempts, email: string, ip: string, a: seq<int>, b: seq<int>)
    ensures RecordAll(fa, email, ip, a + b) == RecordAll(RecordAll(fa, email, ip, a), email, ip, b)
    decreases |a|
  {
    if |a| > 0 {
      assert (a + b)[0] == a[0];
      assert (a + b)[1..] == a[1..] + b;
      RecordAllSplit(RecordFailedAttempt(fa, email, ip, a[0]), email, ip, a[1..], b);
    } else {
      assert a + b == b;
    }
  }

  /** The lock lasts exactly the window: checked at or before `lockedUntil` it
      holds, after it the check lifts it. */
  lemma LockLasts(fa: FailedAttempts, email: string, ip: string, now: int, later: int)
    requires |RecordFailedAttempt(fa, email, ip, now)[email].attempts| >= MaxFailedAttempts
    ensures var locked := RecordFailedAttempt(fa, email, ip, now);
      && (IsAccountLocked(locked, email, later).0 <==> later <= now + LockoutSeconds)
      && (later > now + LockoutSeconds ==> IsAccountLocked(locked, email, later).1[email].lockedUntil.None?)
  {
  }

  /** Once a lock has run out, the old attempts have left the window as well:
      the next failure starts the count afresh rather than locking again. */
  lemma CountRestartsAfterLock(fa: FailedAttempts, email: string, ip: string, now: int)
    requires email in fa && fa[email].lockedUntil.Some?
    requires forall a :: a in fa[email].attempts ==> a.timestamp + LockoutSeconds <= fa[email].lockedUntil.value
    requires now > fa[email].lockedUntil.value
    ensures var cleared := IsAccountLocked(fa, email, now).1;
      RecordFailedAttempt(cleared, email, ip, now)[email] == LockRecord([Attempt(now, ip)], None)
  {
    DropAll(fa[email].attempts, now - LockoutSeconds);
  }

  /** A lock is only ever set with every kept attempt at or before its start,
      which is what the restart above needs. */
  lemma LockCoversAttempts(fa: FailedAttempts, email: string, ip: string, now: int)
    requires forall a :: a in RecordOf(fa, email).attempts ==> a.timestamp <= now
    requires |RecordFailedAttempt(fa, email, ip, now)[email].attempts| >= MaxFailedAttempts
    ensures var r := RecordFailedAttempt(fa, email, ip, now)[email];
      forall a :: a in r.attempts ==> a.timestamp + LockoutSeconds <= r.lockedUntil.value
  {
  }

  // ----- role checks -----

  /** `require_admin`: the first user type named "admin" must exist and be the
      user's type. */
  function RequireAdmin(userTypes: seq<UserType>, user: User): (r: Result<User, AuthError>)
    ensures FirstWhere(userTypes, (t: UserType) => t.name == "admin").None? ==>
              r == Err(AuthorizationError("Admin access not configured"))
    ensures r.Ok? <==> exists t :: t in userTypes && t.name == "admin" && user.userTypeId == Some(t.id)
                                   && FirstWhere(userTypes, (t: UserType) => t.name == "admin") == Some(t)
    ensures r.Ok? ==> r.value == user
    ensures r.Err? && FirstWhere(userTypes, (t: UserType) => t.name == "admin").Some? ==>
              r.error == InsufficientPermissions("Admin privileges required for this operation")
  {
    match FirstWhere(userTypes, (t: UserType) => t.name == "admin")
    case None => Err(AuthorizationError("Admin access not configured"))
    case Some(adminType) =>
      assert adminType in Filter((t: UserType) => t.name == "admin", userTypes);
      if user.userTypeId != Some(adminType.id) then
        Err(InsufficientPermissions("Admin privileges required for this operation"))
      else Ok(user)
  }

  /** `require_role(role)`: the user's type must exist and carry that name. */
  function RequireRole(userTypes: seq<UserType>, role: string, user: User): (r: Result<User, AuthError>)
    ensures r.Ok? <==> var t := FirstWhere(userTypes, (t: UserType) => Some(t.id) == user.userTypeId);
                       t.Some? && t.value.name == role
    ensures r.Ok? ==> r.value == user
    ensures r.Err? ==> r.error == InsufficientPermissions("Role '" + role + "' required for this operation")
  {
    match FirstWhere(userTypes, (t: UserType) => Some(t.id) == user.userTypeId)
    case Some(t) =>
      if t.name != role then Err(InsufficientPermissions("Role '" + role + "' required for this operation"))
      else Ok(user)
    case None => Err(InsufficientPermissions("Role '" + role + "' required for this operation"))
  }

  // ----- get_current_active_user_websocket -----

  /** The user behind a WebSocket token. Unlike `verify_token_access`, a token
      is expired only strictly after its expiry; an expired one is deleted. */
  function WebsocketUser(store: TokenStore, users: seq<User>, token: string, now: int): (r: (Result<User, AuthError>, TokenStore))
    ensures token !in store ==> r == (Err(InvalidCredentials(Some("Invalid token"))), store)
    ensures token in store && store[token].expireDate < now ==>
              r == (Err(InvalidCredentials(Some("Token expired"))), store - {token})
    ensures r.0.Ok? <==> token in store && store[token].expireDate >= now
                         && UserById(users, store[token].userId).Some?
    ensures r.0.Ok? ==> r.0.value == UserById(users, store[token].userId).value && r.1 == store
    ensures token in store && store[token].expireDate >= now && UserById(users, store[token].userId).None? ==>
              r == (Err(InvalidCredentials(Some("User not found"))), store)
  {
    if token !in store then (Err(InvalidCredentials(Some("Invalid token"))), store)
    else if store[token].expireDate < now then (Err(InvalidCredentials(Some("Token expired"))), store - {token})
    else match UserById(users, store[token].userId)
      case None => (Err(InvalidCredentials(Some("User not found"))), store)
      case Some(u) => (Ok(u), store)
  }

  /** The two expiry rules differ on exactly one instant: a token at its
      expiry time is refused over HTTP but still accepted on a WebSocket. */
  lemma ExpiryBoundary(store: TokenStore, users: seq<User>, token: string, now: int)
    requires token != "" && token in store && UserById(users, store[token].userId).Some?
    ensures VerifyTokenAccess(store, token, now).0.Ok? ==> WebsocketUser(store, users, token, now).0.Ok?
    ensures WebsocketUser(store, users, token, now).0.Ok? && !VerifyTokenAccess(store, token, now).0.Ok?
            <==> store[token].expireDate == now
  {
  }
}
