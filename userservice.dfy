/** The user service (`UsersService`): sign-up, sign-in and refresh-token
    rotation over the user directory. Password hashing, token signing and
    the clock are supplied from outside: the hasher as a pair of functions,
    each freshly generated token as a parameter (None when generation
    fails), the current time as `now`. */
module UsersServices {
  import opened Entity
  import opened UsersRepository

  datatype UserInput = UserInput(login: string, password: string)

  datatype Tokens = Tokens(accessToken: string, refreshToken: string)

  /** The zero value of `Tokens`, returned with most errors. */
  const NoTokens := Tokens("", "")

  /** Default lifetimes, in seconds: one hour for access tokens, thirty days
      for refresh sessions. */
  const DefaultAccessTTL := 3600
  const DefaultRefreshTTL := 30 * 24 * 3600

  const MinLoginLength := 3
  const MaxLoginLength := 30
  const MinPasswordLength := 6

  /** Errors of the hasher and the token manager. */
  const HashFailure: Error := Unclassified("failed to hash password")
  const AccessTokenFailure: Error := Unclassified("failed to create access token")
  const RefreshTokenFailure: Error := Unclassified("failed to create refresh token")

  /** A password hasher: `hash` may fail (None); `check` says whether a
      password matches a stored hash. */
  datatype Hasher = Hasher(hash: string -> Option<string>, check: (string, string) -> bool)

  /** A password always matches a hash made from it. */
  ghost predicate Sound(h: Hasher) {
    forall p :: h.hash(p).Some? ==> h.check(p, h.hash(p).value)
  }

  /** Some user of the directory has the input's login and a stored hash the
      input's password matches. */
  ghost predicate CredentialsMatch(users: map<int, UserRecord>, input: UserInput, check: (string, string) -> bool) {
    exists id :: id in users && users[id].login == input.login && check(input.password, users[id].passwordHash)
  }

  /** Where `SignIn` goes after the login lookup. */
  datatype SignInStep = Proceed(userId: int) | Reject(error: Error) | NilDereference

  /** `SignIn`'s decision after the lookup as the source writes it: it maps
      only a `UserNotFound` error to `InvalidCreds`, but the directory reports
      an unknown login as "no user, no error", and the password check then
      reads the hash through the absent user. */
  function SignInStepAsWritten(lookup: Result<Option<User>>, password: string, check: (string, string) -> bool): (step: SignInStep)
    ensures step == NilDereference <==> lookup == Ok(None)
    ensures step.Proceed? <==>
              lookup.Ok? && lookup.value.Some? && check(password, lookup.value.value.passwordHash)
    ensures step.Proceed? ==> step.userId == lookup.value.value.id
  {
    match lookup
    case Err(e) => if e == UserNotFound then Reject(InvalidCreds) else Reject(e)
    case Ok(None) => NilDereference
    case Ok(Some(u)) => if check(password, u.passwordHash) then Proceed(u.id) else Reject(InvalidCreds)
  }

  /** Signing in with a login the directory does not know: `GetByLogin`
      answers `Ok(None)` (no user, no error), and the sign-in as written then
      dereferences the absent user instead of reporting `InvalidCreds`,
      whatever the password. The one error it does map to `InvalidCreds` is
      one the directory's login lookup never returns. */
  lemma UnknownLoginDereferencesNil(password: string, check: (string, string) -> bool)
    ensures SignInStepAsWritten(Ok(None), password, check) == NilDereference
    ensures SignInStepAsWritten(Err(UserNotFound), password, check) == Reject(InvalidCreds)
  {
  }

  class UsersService {
    const repo: UsersRepo
    const hasher: Hasher
    /** Lifetime of access tokens; it only reaches the token manager. */
    const accessTTL: int
    /** Lifetime of a refresh session. */
    const refreshTTL: int

    ghost predicate Valid()
      reads repo
    {
      repo.Valid() && Sound(hasher)
    }

    constructor (repo: UsersRepo, hasher: Hasher, accessTTL: int, refreshTTL: int)
      requires repo.Valid() && Sound(hasher)
      ensures Valid()
      ensures this.repo == repo && this.hasher == hasher
      ensures this.accessTTL == accessTTL && this.refreshTTL == refreshTTL
    {
      this.repo := repo;
      this.hasher := hasher;
      this.accessTTL := accessTTL;
      this.refreshTTL := refreshTTL;
    }

    /** Registers a user: login of 3 to 30 bytes, password of at least 6,
        stored as its hash; returns the new user as re-read from the
        directory, without the hash. */
    method SignUp(input: UserInput, now: int) returns (r: Result<User>)
      requires Valid()
      modifies repo`users, repo`nextId
      ensures Valid()
      ensures !(MinLoginLength <= |input.login| <= MaxLoginLength) ==> r == Err(InvalidInput(LoginLength))
      ensures MinLoginLength <= |input.login| <= MaxLoginLength && |input.password| < MinPasswordLength ==>
                r == Err(InvalidInput(PasswordTooShort))
      ensures MinLoginLength <= |input.login| <= MaxLoginLength && |input.password| >= MinPasswordLength ==>
                && (hasher.hash(input.password).None? ==> r == Err(HashFailure))
                && (hasher.hash(input.password).Some? && !repo.online ==> r == Err(StorageUnavailable))
                && (hasher.hash(input.password).Some? && repo.online && LoginTakenIn(old(repo.users), input.login) ==>
                      r == Err(UserExists))
      ensures r.Ok? <==>
                && MinLoginLength <= |input.login| <= MaxLoginLength && |input.password| >= MinPasswordLength
                && hasher.hash(input.password).Some? && repo.online && !LoginTakenIn(old(repo.users), input.login)
      ensures r.Err? ==> repo.users == old(repo.users) && repo.nextId == old(repo.nextId)
      ensures r.Ok? ==>
                && r.value == User(old(repo.nextId), input.login, "", now)
                && repo.users == old(repo.users)[r.value.id :=
                     UserRecord(r.value.id, input.login, hasher.hash(input.password).value, now, None, None)]
    {
      if |input.login| < MinLoginLength || |input.login| > MaxLoginLength {
        return Err(InvalidInput(LoginLength));
      }
      if |input.password| < MinPasswordLength {
        return Err(InvalidInput(PasswordTooShort));
      }
      var hashed := hasher.hash(input.password);
      if hashed.None? {
        return Err(HashFailure);
      }
      var user := User(0, input.login, hashed.value, now);
      var created := repo.Create(user, now);
      if created.Err? {
        return Err(created.error);
      }
      r := repo.GetByID(created.value);
    }

    /** Checks the login and password and opens a new session for that user.
        An unknown login and a wrong password are both `InvalidCreds`. */
    method SignIn(input: UserInput, now: int, access: Option<string>, refresh: Option<string>)
      returns (tokens: Tokens, err: Option<Error>)
      requires Valid()
      modifies repo`users
      ensures Valid()
      ensures !repo.online ==> err == Some(StorageUnavailable) && tokens == NoTokens
      ensures repo.online ==> (err == Some(InvalidCreds) <==> !CredentialsMatch(old(repo.users), input, hasher.check))
      ensures err == Some(InvalidCreds) ==> tokens == NoTokens
      ensures err.None? <==> repo.online && CredentialsMatch(old(repo.users), input, hasher.check) && access.Some? && refresh.Some?
      ensures err == Some(RefreshTokenFailure) ==> access.Some? && tokens == Tokens(access.value, "")
      ensures err.Some? ==> repo.users == old(repo.users)
      ensures err.None? ==>
                && tokens == Tokens(access.value, refresh.value)
                && exists id :: id in old(repo.users) && old(repo.users)[id].login == input.login
                                && repo.users == WithSession(old(repo.users), id, Session(refresh.value, now + refreshTTL), now)
    {
      var found := repo.GetByLogin(input.login);
      if found.Err? {
        if found.error == UserNotFound {
          return NoTokens, Some(InvalidCreds);
        }
        return NoTokens, Some(found.error);
      }
      if found.value.None? {
        return NoTokens, Some(InvalidCreds);
      }
      var user := found.value.value;
      if !hasher.check(input.password, user.passwordHash) {
        return NoTokens, Some(InvalidCreds);
      }
      tokens, err := CreateSession(user.id, now, access, refresh);
    }

    /** Trades a live refresh token for a new pair of tokens, replacing the
        session it belongs to. */
    method RefreshTokens(token: string, now: int, access: Option<string>, refresh: Option<string>)
      returns (tokens: Tokens, err: Option<Error>)
      requires Valid()
      modifies repo`users
      ensures Valid()
      ensures token == "" ==> err == Some(InvalidInput(EmptyRefreshToken)) && tokens == NoTokens
      ensures token != "" && !repo.online ==> err == Some(StorageUnavailable) && tokens == NoTokens
      ensures token != "" && repo.online ==>
                (err == Some(UserNotFound) <==> !exists id :: ResolvesIn(old(repo.users), token, now, id))
      ensures err == Some(UserNotFound) ==> tokens == NoTokens
      ensures err.None? <==>
                token != "" && repo.online && (exists id :: ResolvesIn(old(repo.users), token, now, id))
                && access.Some? && refresh.Some?
      ensures err.Some? ==> repo.users == old(repo.users)
      ensures err.None? ==>
                && tokens == Tokens(access.value, refresh.value)
                && exists id :: ResolvesIn(old(repo.users), token, now, id)
                                && repo.users == WithSession(old(repo.users), id, Session(refresh.value, now + refreshTTL), now)
    {
      if token == "" {
        return NoTokens, Some(InvalidInput(EmptyRefreshToken));
      }
      var found := repo.GetByRefreshToken(token, now);
      if found.Err? {
        return NoTokens, Some(found.error);
      }
      tokens, err := CreateSession(found.value.id, now, access, refresh);
    }

    /** Issues an access and a refresh token for user `id` and stores the
        refresh token as the user's one session, expiring `refreshTTL` after
        `now`. A refresh-token failure still hands back the access token. */
    method CreateSession(id: int, now: int, access: Option<string>, refresh: Option<string>)
      returns (tokens: Tokens, err: Option<Error>)
      requires Valid()
      modifies repo`users
      ensures Valid()
      ensures access.None? ==> tokens == NoTokens && err == Some(AccessTokenFailure)
      ensures access.Some? && refresh.None? ==> tokens == Tokens(access.value, "") && err == Some(RefreshTokenFailure)
      ensures access.Some? && refresh.Some? && !repo.online ==> tokens == NoTokens && err == Some(StorageUnavailable)
      ensures err.Some? ==> repo.users == old(repo.users)
      ensures access.Some? && refresh.Some? && repo.online ==>
                && err == None
                && tokens == Tokens(access.value, refresh.value)
                && repo.users == WithSession(old(repo.users), id, Session(refresh.value, now + refreshTTL), now)
    {
      tokens := NoTokens;
      if access.None? {
        return tokens, Some(AccessTokenFailure);
      }
      tokens := tokens.(accessToken := access.value);
      if refresh.None? {
        return tokens, Some(RefreshTokenFailure);
      }
      tokens := tokens.(refreshToken := refresh.value);
      var session := Session(refresh.value, now + refreshTTL);
      err := repo.SetSession(id, session, now);
      if err.Some? {
        return NoTokens, err;
      }
    }
  }

  /** A user who has just signed up can sign in with the same password, and
      the refresh token handed out then resolves to that user until it
      expires. */
  method SignUpThenSignIn(svc: UsersService, input: UserInput, now: int, access: string, refresh: string)
    returns (user: Result<User>, tokens: Tokens, err: Option<Error>)
    requires svc.Valid() && svc.repo.online && svc.refreshTTL > 0
    requires MinLoginLength <= |input.login| <= MaxLoginLength && |input.password| >= MinPasswordLength
    requires svc.hasher.hash(input.password).Some?
    requires !LoginTakenIn(svc.repo.users, input.login)
    modifies svc.repo`users, svc.repo`nextId
    ensures svc.Valid()
    ensures user.Ok? && user.value.login == input.login && user.value.passwordHash == ""
    ensures err.None? && tokens == Tokens(access, refresh)
    ensures ResolvesIn(svc.repo.users, refresh, now, user.value.id)
  {
    user := svc.SignUp(input, now);
    ghost var id := user.value.id;
    assert svc.repo.users[id].login == input.login;
    assert svc.hasher.check(input.password, svc.repo.users[id].passwordHash);
    ghost var before := svc.repo.users;
    tokens, err := svc.SignIn(input, now, Some(access), Some(refresh));
    ghost var holder :| holder in before && before[holder].login == input.login
                        && svc.repo.users == WithSession(before, holder, Session(refresh, now + svc.refreshTTL), now);
    assert holder == id;
  }

  /** Refreshing rotates the session: the new pair is issued, and the token
      just used no longer works. */
  method RefreshRotates(svc: UsersService, token: string, now: int, access1: string, refresh1: string,
                        access2: Option<string>, refresh2: Option<string>)
    returns (first: Option<Error>, second: Option<Error>)
    requires svc.Valid() && svc.repo.online && token != "" && refresh1 != token
    requires exists id :: ResolvesIn(svc.repo.users, token, now, id)
    requires forall a, b :: ResolvesIn(svc.repo.users, token, now, a) && ResolvesIn(svc.repo.users, token, now, b) ==> a == b
    modifies svc.repo`users
    ensures first == None && second == Some(UserNotFound)
  {
    var tokens;
    ghost var before := svc.repo.users;
    tokens, first := svc.RefreshTokens(token, now, Some(access1), Some(refresh1));
    ghost var holder :| ResolvesIn(before, token, now, holder)
                        && svc.repo.users == WithSession(before, holder, Session(refresh1, now + svc.refreshTTL), now);
    forall id | true
      ensures !ResolvesIn(svc.repo.users, token, now, id)
    {
      WithSessionFrame(before, holder, Session(refresh1, now + svc.refreshTTL), now);
      if id == holder {
        PreviousTokenRotatesOut(before, holder, Session(refresh1, now + svc.refreshTTL), now, token, now);
      } else if id in before {
        assert svc.repo.users[id] == before[id];
        assert !ResolvesIn(before, token, now, id);
      }
    }
    tokens, second := svc.RefreshTokens(token, now, access2, refresh2);
  }
}
