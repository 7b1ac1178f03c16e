/** The session helpers of the generated endpoint code (sevdo_backend/output.py):
    reading the token from the `Authorization` header, checking a session, and
    the effect of login, refresh, logout and revoke on the session table.
    The table is a map from session id to its owner and expiry; times are whole
    seconds, the password check and the fresh session id are parameters. */
module SessionAuth {
  import opened Wrappers
  import opened Text

  /** A row of `sessions`. */
  datatype Session = Session(userId: int, expiry: int)

  /** A row of `users`. */
  datatype UserRow = UserRow(id: int, username: string, passwordHash: string)

  type Sessions = map<string, Session>

  /** `timedelta(hours=1)` */
  const SessionLifetime: int := 3600

  const MissingHeader := HttpError(401, "Missing Authorization header")
  const InvalidHeader := HttpError(401, "Invalid Authorization header")
  const InvalidSession := HttpError(401, "Invalid or expired session")
  const UserNotFound := HttpError(401, "User not found")
  const InvalidCredentials := HttpError(401, "Invalid credentials")
  const SessionNotFound := HttpError(404, "Session not found")

  // ----- extract_token -----

  /** `extract_token`: "Bearer <token>" (any case of the scheme) or a bare token. */
  function ExtractToken(header: Option<string>): (r: Result<string, HttpError>)
    ensures header.None? || header.value == "" ==> r == Err(MissingHeader)
    ensures r.Ok? ==> |r.value| > 0 && NoSpace(r.value)
    ensures r.Err? ==> r.error == MissingHeader || r.error == InvalidHeader
  {
    if header.None? || header.value == "" then Err(MissingHeader)
    else
      var parts := Words(header.value);
      if |parts| == 2 && Lower(parts[0]) == "bearer" then Ok(parts[1])
      else if |parts| == 1 then Ok(parts[0])
      else Err(InvalidHeader)
  }

  /** "<scheme> <token>" with the scheme spelled "bearer" in any case gives the token. */
  lemma ExtractBearer(scheme: string, token: string)
    requires Lower(scheme) == "bearer"
    requires |token| > 0 && NoSpace(token)
    ensures ExtractToken(Some(scheme + " " + token)) == Ok(token)
  {
    assert NoSpace(scheme) by {
      forall i | 0 <= i < |scheme|
        ensures !IsSpace(scheme[i])
      {
        assert Lower(scheme)[i] == ToLower(scheme[i]);
      }
    }
    assert |scheme| == 6;
    WordsOfJoin([scheme, token]);
    assert Join([scheme, token], " ") == scheme + " " + token;
  }

  /** A bare token is taken as it is. */
  lemma ExtractBare(token: string)
    requires |token| > 0 && NoSpace(token)
    ensures ExtractToken(Some(token)) == Ok(token)
  {
    WordsOfJoin([token]);
  }

  /** Any other shape is rejected: nothing but whitespace, three or more
      words, or two words whose first is not the bearer scheme. */
  lemma ExtractRejects(header: string)
    requires header != ""
    requires var parts := Words(header);
      |parts| == 0 || |parts| > 2 || (|parts| == 2 && Lower(parts[0]) != "bearer")
    ensures ExtractToken(Some(header)) == Err(InvalidHeader)
  {
  }

  // ----- get_current_session / get_current_user -----

  /** `get_current_session` at time `now`: the presented session, unless it is
      missing or its expiry is strictly before `now`. */
  function CurrentSession(sessions: Sessions, header: Option<string>, now: int): (r: Result<(string, Session), HttpError>)
    ensures r.Ok? ==> r.value.0 in sessions && sessions[r.value.0] == r.value.1 && r.value.1.expiry >= now
    ensures r.Ok? ==> ExtractToken(header) == Ok(r.value.0)
    ensures ExtractToken(header).Ok? ==>
              (r.Ok? <==> ExtractToken(header).value in sessions
                          && sessions[ExtractToken(header).value].expiry >= now)
    ensures r.Err? && ExtractToken(header).Ok? ==> r.error == InvalidSession
  {
    var token :- ExtractToken(header);
    if token !in sessions || sessions[token].expiry < now then Err(InvalidSession)
    else Ok((token, sessions[token]))
  }

  /** The first user row with the given id or name (`.first()`). */
  function FindUser(users: seq<UserRow>, matches: UserRow -> bool): (r: Option<UserRow>)
    ensures r.Some? ==> r.value in users && matches(r.value)
    ensures r.None? ==> forall i :: 0 <= i < |users| ==> !matches(users[i])
  {
    if |users| == 0 then None
    else if matches(users[0]) then Some(users[0])
    else FindUser(users[1..], matches)
  }

  /** `get_current_user`: the owner of the current session. */
  function CurrentUser(users: seq<UserRow>, sessions: Sessions, header: Option<string>, now: int): (r: Result<UserRow, HttpError>)
    ensures r.Ok? ==> CurrentSession(sessions, header, now).Ok?
                      && r.value.id == CurrentSession(sessions, header, now).value.1.userId
                      && r.value in users
    ensures CurrentSession(sessions, header, now).Err? ==> r.Err? && r.error == CurrentSession(sessions, header, now).error
  {
    var (_, session) :- CurrentSession(sessions, header, now);
    match FindUser(users, (u: UserRow) => u.id == session.userId)
    case None => Err(UserNotFound)
    case Some(u) => Ok(u)
  }

  // ----- endpoints -----

  /** `login_endpoint`: `verify(password, hash)` is the password check and
      `newId` the fresh session id. A new session for the user, valid for an hour. */
  function Login(users: seq<UserRow>, sessions: Sessions, username: string, password: string,
                 verify: (string, string) -> bool, newId: string, now: int): (r: Result<(string, Sessions), HttpError>)
    requires newId !in sessions
    ensures r.Err? ==> r.error == InvalidCredentials
    ensures (forall i :: 0 <= i < |users| ==> users[i].username != username) ==> r.Err?
    ensures r.Ok? <==> var u := FindUser(users, (u: UserRow) => u.username == username);
                       u.Some? && verify(password, u.value.passwordHash)
    ensures r.Ok? ==> r.value.0 == newId
    ensures r.Ok? ==> exists u :: u in users && u.username == username && verify(password, u.passwordHash)
                         && r.value.1 == sessions[newId := Session(u.id, now + SessionLifetime)]
  {
    match FindUser(users, (u: UserRow) => u.username == username)
    case None => Err(InvalidCredentials)
    case Some(u) =>
      if !verify(password, u.passwordHash) then Err(InvalidCredentials)
      else Ok((newId, sessions[newId := Session(u.id, now + SessionLifetime)]))
  }

  /** `refresh_endpoint`: the session gets the id `newId` and a new expiry an
      hour from now; its owner is kept. */
  function Refresh(sessions: Sessions, header: Option<string>, newId: string, now: int): (r: Result<(string, Sessions), HttpError>)
    requires newId !in sessions
    ensures r.Ok? <==> CurrentSession(sessions, header, now).Ok?
    ensures r.Err? ==> r.error == CurrentSession(sessions, header, now).error
    ensures r.Ok? ==>
              var cur := CurrentSession(sessions, header, now).value;
              r.value == (newId, (sessions - {cur.0})[newId := Session(cur.1.userId, now + SessionLifetime)])
  {
    var (id, session) :- CurrentSession(sessions, header, now);
    Ok((newId, (sessions - {id})[newId := session.(expiry := now + SessionLifetime)]))
  }

  /** `logout_endpoint`: exactly the presented session goes. */
  function Logout(sessions: Sessions, header: Option<string>, now: int): (r: Result<Sessions, HttpError>)
    ensures r.Ok? <==> CurrentSession(sessions, header, now).Ok?
    ensures r.Ok? ==> r.value == sessions - {CurrentSession(sessions, header, now).value.0}
  {
    var (id, _) :- CurrentSession(sessions, header, now);
    Ok(sessions - {id})
  }

  /** `list_sessions_endpoint`: each of the user's sessions as its id and
      expiry (database order is not fixed, so a set). */
  function SessionsOf(sessions: Sessions, userId: int): (listed: set<(string, int)>)
    ensures forall id, expiry :: (id, expiry) in listed <==>
              id in sessions && sessions[id].userId == userId && sessions[id].expiry == expiry
  {
    set id | id in sessions && sessions[id].userId == userId :: (id, sessions[id].expiry)
  }

  /** `revoke_session_endpoint` for the current user `userId`: only a session
      with that id and that owner is deleted; otherwise 404 and nothing changes. */
  function Revoke(sessions: Sessions, userId: int, id: string): (r: Result<Sessions, HttpError>)
    ensures r.Ok? <==> id in sessions && (id, sessions[id].expiry) in SessionsOf(sessions, userId)
    ensures r.Ok? ==> r.value == sessions - {id}
    ensures r.Err? ==> r.error == SessionNotFound
  {
    assert id in sessions && sessions[id].userId == userId ==> (id, sessions[id].expiry) in SessionsOf(sessions, userId);
    if id in sessions && sessions[id].userId == userId then Ok(sessions - {id})
    else Err(SessionNotFound)
  }

  /** A user never revokes another user's session. */
  lemma RevokeKeepsOthers(sessions: Sessions, userId: int, id: string)
    ensures var r := Revoke(sessions, userId, id);
      var after := if r.Ok? then r.value else sessions;
      forall s :: s in sessions && sessions[s].userId != userId ==> s in after && after[s] == sessions[s]
  {
  }

  /** A fresh login is accepted by `get_current_session` for the next hour and
      rejected afterwards. */
  lemma LoginThenSession(users: seq<UserRow>, sessions: Sessions, username: string, password: string,
                         verify: (string, string) -> bool, newId: string, now: int, later: int)
    requires newId !in sessions && |newId| > 0 && NoSpace(newId)
    requires Login(users, sessions, username, password, verify, newId, now).Ok?
    ensures var s := Login(users, sessions, username, password, verify, newId, now).value.1;
      (CurrentSession(s, Some(newId), later).Ok? <==> later <= now + SessionLifetime)
  {
    ExtractBare(newId);
  }
}
