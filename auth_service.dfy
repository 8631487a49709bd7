/** The authentication service (app/core/auth/service.py) over an in-memory copy of the
    `users` and `users_session` tables. Password hashing and checking (bcrypt) and the
    generation of session tokens (uuid4) are parameters. */
module AuthService {
  import opened Wrappers

  /** A row of `users`; `passwordHash` is the stored (hashed) password. */
  datatype User = User(id: int, login: string, email: string, firstName: string, lastName: string, passwordHash: string)

  /** A row of `users_session`; `createdAt` is the database clock at insertion. */
  datatype Session = Session(id: int, userId: int, token: string, createdAt: int)

  /** UserRegistrationDTO. */
  datatype Registration = Registration(
    id: int,
    login: string,
    firstName: string,
    lastName: string,
    email: string,
    sessionToken: string)

  datatype AuthError =
    | UserNotFound(login: string)
    | IncorrectPassword(login: string)
    | UserAlreadyExists(login: string, email: string)
    // IntegrityError: the new token is already in the unique `session_token` column
    | DuplicateSessionToken(token: string)

  // ---------------------------------------------------------------------------
  // Table lookups

  /** `get_user_by_login`: the first user row with that login. */
  function FirstByLogin(rows: seq<User>, login: string): (r: Option<User>)
    ensures r.Some? ==> r.value in rows && r.value.login == login
    ensures r.None? <==> forall i :: 0 <= i < |rows| ==> rows[i].login != login
  {
    if rows == [] then None
    else if rows[0].login == login then Some(rows[0])
    else
      var r := FirstByLogin(rows[1..], login);
      assert forall i :: 1 <= i < |rows| ==> rows[i] == rows[1..][i - 1];
      r
  }

  /** `get_user_by_email`: the first user row with that email. */
  function FirstByEmail(rows: seq<User>, email: string): (r: Option<User>)
    ensures r.Some? ==> r.value in rows && r.value.email == email
    ensures r.None? <==> forall i :: 0 <= i < |rows| ==> rows[i].email != email
  {
    if rows == [] then None
    else if rows[0].email == email then Some(rows[0])
    else
      var r := FirstByEmail(rows[1..], email);
      assert forall i :: 1 <= i < |rows| ==> rows[i] == rows[1..][i - 1];
      r
  }

  /** `get_users_session`: the user's session with the latest `created_at` (the last such row
      in table order when several share it). */
  function LatestSession(rows: seq<Session>, userId: int): (r: Option<Session>)
    ensures r.Some? ==> r.value in rows && r.value.userId == userId
    ensures r.Some? ==> forall i :: 0 <= i < |rows| && rows[i].userId == userId ==> rows[i].createdAt <= r.value.createdAt
    ensures r.None? <==> forall i :: 0 <= i < |rows| ==> rows[i].userId != userId
    decreases |rows|
  {
    if rows == [] then None
    else
      var init := rows[..|rows| - 1];
      var last := rows[|rows| - 1];
      var earlier := LatestSession(init, userId);
      assert forall i :: 0 <= i < |rows| - 1 ==> rows[i] == init[i];
      if last.userId != userId then earlier
      else if earlier.Some? && earlier.value.createdAt > last.createdAt then earlier
      else Some(last)
  }

  /** No two users share a login, and no two share an email. */
  ghost predicate UniqueLoginsAndEmails(rows: seq<User>)
  {
    forall i, j :: 0 <= i < j < |rows| ==> rows[i].login != rows[j].login && rows[i].email != rows[j].email
  }

  /** AuthService, with the repositories' tables held in memory. New rows get the next
      autoincrement id. */
  class AuthService {
    var users: seq<User>
    var sessions: seq<Session>
    var nextUserId: int
    var nextSessionId: int

    /** Ids are below the next autoincrement value, every session belongs to an existing
        user id, and session tokens are unique. */
    ghost predicate Valid()
      reads this
    {
      && (forall i :: 0 <= i < |users| ==> users[i].id < nextUserId)
      && (forall i :: 0 <= i < |sessions| ==> sessions[i].userId < nextUserId && sessions[i].id < nextSessionId)
      && (forall i, j :: 0 <= i < j < |sessions| ==> sessions[i].token != sessions[j].token)
    }

    constructor ()
      ensures Valid()
      ensures users == [] && sessions == []
    {
      users := [];
      sessions := [];
      nextUserId := 1;
      nextSessionId := 1;
    }

    /** `_is_user_exist_by_login_or_email`: some user has that login or that email. */
    function IsUserExistByLoginOrEmail(login: string, email: string): (r: bool)
      reads this
      ensures r <==> exists i :: 0 <= i < |users| && (users[i].login == login || users[i].email == email)
    {
      FirstByLogin(users, login).Some? || FirstByEmail(users, email).Some?
    }

    /** get_or_create_user_session: the latest existing session of the user, or else a new
        session with the fresh token; inserting a token that is already taken fails. */
    method GetOrCreateUserSession(userId: int, freshToken: string, now: int) returns (r: Result<Session, AuthError>)
      requires Valid()
      requires userId < nextUserId
      modifies this
      ensures Valid()
      ensures old(LatestSession(sessions, userId)).Some? ==>
                r == Success(old(LatestSession(sessions, userId)).value) && sessions == old(sessions)
      ensures old(LatestSession(sessions, userId)).None? ==>
                if exists i :: 0 <= i < |old(sessions)| && old(sessions)[i].token == freshToken
                then r == Failure(DuplicateSessionToken(freshToken)) && sessions == old(sessions)
                else r == Success(Session(old(nextSessionId), userId, freshToken, now))
                     && sessions == old(sessions) + [r.value]
      ensures r.Success? ==> r.value.userId == userId && LatestSession(sessions, userId) == Some(r.value)
      ensures users == old(users) && nextUserId == old(nextUserId)
    {
      var existing := LatestSession(sessions, userId);
      if existing.Some? {
        return Success(existing.value);
      }
      if exists i :: 0 <= i < |sessions| && sessions[i].token == freshToken {
        return Failure(DuplicateSessionToken(freshToken));
      }
      var s := Session(nextSessionId, userId, freshToken, now);
      AppendSessionKeepsInvariants(sessions, s, nextUserId, nextSessionId);
      sessions := sessions + [s];
      nextSessionId := nextSessionId + 1;
      OnlySessionIsLatest(old(sessions), s);
      r := Success(s);
    }

    /** authenticate_user: an unknown login fails before the password is looked at; a
        password `verify` rejects fails next; otherwise the user's session is returned. */
    method AuthenticateUser(login: string, password: string, verify: (string, string) -> bool,
                            freshToken: string, now: int)
      returns (r: Result<Session, AuthError>)
      requires Valid()
      modifies this
      ensures Valid()
      ensures FirstByLogin(old(users), login).None? ==> r == Failure(UserNotFound(login)) && sessions == old(sessions)
      ensures FirstByLogin(old(users), login).Some? && !verify(password, FirstByLogin(old(users), login).value.passwordHash) ==>
                r == Failure(IncorrectPassword(login)) && sessions == old(sessions)
      ensures FirstByLogin(old(users), login).Some? && verify(password, FirstByLogin(old(users), login).value.passwordHash) ==>
                (r.Success? ==> r.value.userId == FirstByLogin(old(users), login).value.id
                                && LatestSession(sessions, r.value.userId) == Some(r.value))
                && (old(LatestSession(sessions, FirstByLogin(users, login).value.id)).Some? ==>
                      r == Success(old(LatestSession(sessions, FirstByLogin(users, login).value.id)).value))
      ensures users == old(users)
    {
      var user := FirstByLogin(users, login);
      if user.None? {
        return Failure(UserNotFound(login));
      }
      if !verify(password, user.value.passwordHash) {
        return Failure(IncorrectPassword(login));
      }
      r := GetOrCreateUserSession(user.value.id, freshToken, now);
    }

    /** user_registration: a taken login or email fails and creates nothing; otherwise a user
        is created with `hash(password)` as its stored password, and its session's token is
        the one returned. */
    method UserRegistration(login: string, password: string, firstName: string, lastName: string, email: string,
                            hash: string -> string, freshToken: string, now: int)
      returns (r: Result<Registration, AuthError>)
      requires Valid()
      modifies this
      ensures Valid()
      ensures old(IsUserExistByLoginOrEmail(login, email)) ==>
                r == Failure(UserAlreadyExists(login, email)) && users == old(users) && sessions == old(sessions)
      ensures !old(IsUserExistByLoginOrEmail(login, email)) ==>
                users == old(users) + [User(old(nextUserId), login, email, firstName, lastName, hash(password))]
      ensures r.Success? ==>
                && r.value == Registration(old(nextUserId), login, firstName, lastName, email, freshToken)
                && sessions == old(sessions) + [Session(old(nextSessionId), old(nextUserId), freshToken, now)]
                && LatestSession(sessions, r.value.id).Some?
                && LatestSession(sessions, r.value.id).value.token == r.value.sessionToken
      ensures r.Failure? && !old(IsUserExistByLoginOrEmail(login, email)) ==>
                r == Failure(DuplicateSessionToken(freshToken)) && sessions == old(sessions)
      ensures UniqueLoginsAndEmails(old(users)) ==> UniqueLoginsAndEmails(users)
    {
      if IsUserExistByLoginOrEmail(login, email) {
        return Failure(UserAlreadyExists(login, email));
      }
      var hashed := hash(password);
      var user := User(nextUserId, login, email, firstName, lastName, hashed);
      NewUserKeepsUnique(users, user);
      users := users + [user];
      nextUserId := nextUserId + 1;
      NoSessionForNewUser(sessions, user.id);
      var session := GetOrCreateUserSession(user.id, freshToken, now);
      if session.Failure? {
        return Failure(session.error);
      }
      r := Success(Registration(user.id, user.login, user.firstName, user.lastName, user.email, session.value.token));
    }
  }

  /** A session appended for a user who had none is that user's latest session. */
  lemma OnlySessionIsLatest(rows: seq<Session>, s: Session)
    requires LatestSession(rows, s.userId).None?
    ensures LatestSession(rows + [s], s.userId) == Some(s)
  {
    assert (rows + [s])[..|rows + [s]| - 1] == rows;
  }

  /** A new session with a fresh token and the next id keeps the session invariants. */
  lemma AppendSessionKeepsInvariants(rows: seq<Session>, s: Session, nextUserId: int, nextSessionId: int)
    requires forall i :: 0 <= i < |rows| ==> rows[i].userId < nextUserId && rows[i].id < nextSessionId
    requires forall i, j :: 0 <= i < j < |rows| ==> rows[i].token != rows[j].token
    requires forall i :: 0 <= i < |rows| ==> rows[i].token != s.token
    requires s.userId < nextUserId && s.id == nextSessionId
    ensures forall i :: 0 <= i < |rows + [s]| ==> (rows + [s])[i].userId < nextUserId && (rows + [s])[i].id < nextSessionId + 1
    ensures forall i, j :: 0 <= i < j < |rows + [s]| ==> (rows + [s])[i].token != (rows + [s])[j].token
  {
  }

  /** A user id no session row mentions has no latest session. */
  lemma NoSessionForNewUser(rows: seq<Session>, userId: int)
    requires forall i :: 0 <= i < |rows| ==> rows[i].userId < userId
    ensures LatestSession(rows, userId).None?
  {
  }

  /** Appending a user whose login and email no row has keeps logins and emails unique. */
  lemma NewUserKeepsUnique(rows: seq<User>, u: User)
    requires forall i :: 0 <= i < |rows| ==> rows[i].login != u.login && rows[i].email != u.email
    ensures UniqueLoginsAndEmails(rows) ==> UniqueLoginsAndEmails(rows + [u])
  {
    if UniqueLoginsAndEmails(rows) {
      var r := rows + [u];
      forall i, j | 0 <= i < j < |r|
        ensures r[i].login != r[j].login && r[i].email != r[j].email
      {
        if j == |rows| {
          assert r[i] == rows[i] && r[j] == u;
        } else {
          assert r[i] == rows[i] && r[j] == rows[j];
        }
      }
    }
  }
}
