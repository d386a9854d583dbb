/** The user directory (`UsersRepo`): the users table with one refresh-session
    slot per user, held in memory. The SQL statements become reads and writes
    of a map from id to row; the database's NOW() and its reachability are
    explicit (`now` parameters, the `online` field). */
module UsersRepository {
  import opened Entity

  /** A row of the users table. `session` holds the columns refresh_token and
      refresh_expires_at, and `lastVisitAt` the column last_visit_at; all are
      NULL (None) until a session is first set. */
  datatype UserRecord = UserRecord(
    id: int,
    login: string,
    passwordHash: string,
    createdAt: int,
    session: Option<Session>,
    lastVisitAt: Option<int>)

  /** The error text `GetByID` returns on a miss: a plain error, not the
      `ErrUserNotFound` sentinel. */
  const PlainUserNotFound: Error := Unclassified("user not found")

  predicate LoginTakenIn(users: map<int, UserRecord>, login: string) {
    exists id :: id in users && users[id].login == login
  }

  /** `token` is the stored refresh token of user `id` and its expiry is
      strictly after `now`. */
  predicate ResolvesIn(users: map<int, UserRecord>, token: string, now: int, id: int) {
    && id in users
    && users[id].session.Some?
    && users[id].session.value.refreshToken == token
    && now < users[id].session.value.expiresAt
  }

  /** The table after overwriting the session slot of user `id` and stamping
      its last visit with `visit` (no row changes when there is no such
      user). */
  function WithSession(users: map<int, UserRecord>, id: int, s: Session, visit: int): (r: map<int, UserRecord>)
    ensures id in users ==> id in r && r[id].session == Some(s) && r[id].lastVisitAt == Some(visit)
    ensures id !in users ==> r == users
  {
    if id in users then users[id := users[id].(session := Some(s), lastVisitAt := Some(visit))] else users
  }

  /** Overwriting one user's session keeps every other row, and that user's
      id, login, hash and creation time, as they were. */
  lemma WithSessionFrame(users: map<int, UserRecord>, id: int, s: Session, visit: int)
    ensures WithSession(users, id, s, visit).Keys == users.Keys
    ensures forall other :: other in users && other != id ==> WithSession(users, id, s, visit)[other] == users[other]
    ensures id in users ==>
              var row := WithSession(users, id, s, visit)[id];
              && row.id == users[id].id && row.login == users[id].login
              && row.passwordHash == users[id].passwordHash && row.createdAt == users[id].createdAt
  {
  }

  /** Rotation: once the slot holds a new token, the previous token no longer
      resolves to that user, at any time. */
  lemma PreviousTokenRotatesOut(users: map<int, UserRecord>, id: int, s: Session, visit: int, previous: string, now: int)
    requires s.refreshToken != previous
    ensures !ResolvesIn(WithSession(users, id, s, visit), previous, now, id)
  {
  }

  /** The only token that resolves to a user after its session is set is the
      new one, and it does so exactly until its expiry. */
  lemma OnlyNewestTokenResolves(users: map<int, UserRecord>, id: int, s: Session, visit: int, token: string, now: int)
    requires id in users
    ensures ResolvesIn(WithSession(users, id, s, visit), token, now, id) <==> token == s.refreshToken && now < s.expiresAt
  {
  }

  /** `UsersRepo.Create` as the source writes it: a rejected INSERT is
      returned as the driver's error wrapped in "failed to create new user",
      so a taken login (rejected by a unique index on login, assumed here) is
      never reported as `UserExists`. */
  function CreateAsWritten(users: map<int, UserRecord>, nextId: int, online: bool, login: string): (r: Result<int>)
    ensures r.Ok? <==> online && !LoginTakenIn(users, login)
    ensures r.Err? ==> r.error != UserExists
  {
    if !online then Err(StorageUnavailable)
    else if LoginTakenIn(users, login) then Err(Unclassified("failed to create new user: duplicate key"))
    else Ok(nextId)
  }

  /** A second sign-up for "alice" gets a generic storage error from the
      directory as written, so `SignUp`'s `UserExists` branch never runs. */
  lemma TakenLoginNotReportedAsUserExists()
    ensures var users := map[1 := UserRecord(1, "alice", "h", 0, None, None)];
            var r := CreateAsWritten(users, 2, true, "alice");
            r.Err? && r.error != UserExists
  {
    var users := map[1 := UserRecord(1, "alice", "h", 0, None, None)];
    assert users[1].login == "alice";
  }

  class UsersRepo {
    var users: map<int, UserRecord>
    var nextId: int
    var online: bool

    /** Ids are the keys, below the next id to hand out, and logins are unique. */
    ghost predicate Valid()
      reads this
    {
      && nextId >= 1
      && (forall id :: id in users ==> users[id].id == id && 1 <= id < nextId)
      && (forall a, b :: a in users && b in users && users[a].login == users[b].login ==> a == b)
    }

    constructor ()
      ensures Valid() && users == map[] && nextId == 1 && online
    {
      users := map[];
      nextId := 1;
      online := true;
    }

    /** INSERT of login and password hash; id and created_at come from the
        database, so `user.id` and `user.createdAt` are ignored. */
    method Create(user: User, now: int) returns (r: Result<int>)
      requires Valid()
      modifies this`users, this`nextId
      ensures Valid()
      ensures r.Ok? <==> online && !LoginTakenIn(old(users), user.login)
      ensures !online ==> r == Err(StorageUnavailable)
      ensures online && LoginTakenIn(old(users), user.login) ==> r == Err(UserExists)
      ensures r.Err? ==> users == old(users) && nextId == old(nextId)
      ensures r.Ok? ==>
                && r.value == old(nextId) && r.value !in old(users)
                && users == old(users)[r.value := UserRecord(r.value, user.login, user.passwordHash, now, None, None)]
                && nextId == old(nextId) + 1
    {
      if !online {
        return Err(StorageUnavailable);
      }
      if exists id :: id in users && users[id].login == user.login {
        return Err(UserExists);
      }
      var id := nextId;
      users := users[id := UserRecord(id, user.login, user.passwordHash, now, None, None)];
      nextId := nextId + 1;
      r := Ok(id);
    }

    /** The user with that login, hash included; a miss is no user and no
        error. */
    method GetByLogin(login: string) returns (r: Result<Option<User>>)
      requires Valid()
      ensures !online ==> r == Err(StorageUnavailable)
      ensures online ==> r.Ok? && (r.value.None? <==> !LoginTakenIn(users, login))
      ensures r.Ok? && r.value.Some? ==>
                var u := r.value.value;
                && u.id in users && u.login == login
                && u == User(u.id, users[u.id].login, users[u.id].passwordHash, users[u.id].createdAt)
    {
      if !online {
        return Err(StorageUnavailable);
      }
      if exists id :: id in users && users[id].login == login {
        var id :| id in users && users[id].login == login;
        var row := users[id];
        r := Ok(Some(User(row.id, row.login, row.passwordHash, row.createdAt)));
      } else {
        r := Ok(None);
      }
    }

    /** The user with that id, without its password hash. */
    method GetByID(id: int) returns (r: Result<User>)
      requires Valid()
      ensures !online ==> r == Err(StorageUnavailable)
      ensures online && id !in users ==> r == Err(PlainUserNotFound)
      ensures online && id in users ==> r == Ok(User(id, users[id].login, "", users[id].createdAt))
    {
      if !online {
        return Err(StorageUnavailable);
      }
      if id !in users {
        return Err(PlainUserNotFound);
      }
      r := Ok(User(id, users[id].login, "", users[id].createdAt));
    }

    /** A user whose current session token is `token` and whose expiry is
        strictly after `now`; otherwise `ErrUserNotFound`. */
    method GetByRefreshToken(token: string, now: int) returns (r: Result<User>)
      requires Valid()
      ensures !online ==> r == Err(StorageUnavailable)
      ensures online ==> (r.Ok? <==> exists id :: ResolvesIn(users, token, now, id))
      ensures online && r.Err? ==> r.error == UserNotFound
      ensures r.Ok? ==>
                && ResolvesIn(users, token, now, r.value.id)
                && r.value == User(r.value.id, users[r.value.id].login, users[r.value.id].passwordHash, users[r.value.id].createdAt)
    {
      if !online {
        return Err(StorageUnavailable);
      }
      if exists id :: id in users && ResolvesIn(users, token, now, id) {
        var id :| id in users && ResolvesIn(users, token, now, id);
        var row := users[id];
        r := Ok(User(row.id, row.login, row.passwordHash, row.createdAt));
      } else {
        r := Err(UserNotFound);
      }
    }

    /** Overwrites the one session slot of user `id` and stamps its last visit
        with `now`; an absent id is not an error. */
    method SetSession(id: int, s: Session, now: int) returns (err: Option<Error>)
      requires Valid()
      modifies this`users
      ensures Valid()
      ensures !online ==> err == Some(StorageUnavailable) && users == old(users)
      ensures online ==> err == None && users == WithSession(old(users), id, s, now)
    {
      if !online {
        return Some(StorageUnavailable);
      }
      users := WithSession(users, id, s, now);
      err := None;
    }
  }
}
