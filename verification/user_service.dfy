/** Accounts of the booking service: registration, login, and the admin
    operations on users. Password hashing and token signing are
    collaborators passed in as functions. */
module UserService {
  import opened Wrappers
  import opened Lang
  import opened BookingModel
  import Seqs

  datatype RegisterRequest = RegisterRequest(username: string, password: string, email: Option<string>, fullName: Option<string>)
  datatype AuthRequest = AuthRequest(username: string, password: string)
  datatype AuthResponse = AuthResponse(token: string, username: string, role: string)
  datatype CreateUserRequest = CreateUserRequest(username: string, password: string, role: string, email: Option<string>, fullName: Option<string>)
  datatype UpdateUserRequest = UpdateUserRequest(password: Option<string>, email: Option<string>, fullName: Option<string>, role: Option<string>)

  /** The password encoder, its matcher, and the token issuer (username and
      roles to a signed token). */
  datatype Crypto = Crypto(
    encode: string -> string,
    matches: (string, string) -> bool,
    issue: (string, seq<string>) -> string)

  /** The encoder's promise: a raw password matches its own encoding. */
  ghost predicate Sound(c: Crypto) {
    forall p :: c.matches(p, c.encode(p))
  }

  const DefaultRole := "USER"
  const InvalidLogin := "Invalid username or password"

  /** `getUserByUsername` */
  function GetUserByUsername(db: BookingDb, username: string): (r: Result<User, Failure>)
    ensures r.Ok? <==> HasUsername(db.users, username)
    ensures r.Ok? ==> r.value in db.users && r.value.username == username
    ensures r.Err? ==> r.error == Fail(UserNotFound)
  {
    match FindByUsername(db.users, username)
    case Some(u) => Ok(u)
    case None => Err(Fail(UserNotFound))
  }

  /** Appending a user with a fresh id and a fresh username keeps the tables
      consistent. */
  lemma AppendUserKeepsValid(db: BookingDb, user: User)
    requires Valid(db) && !HasUser(db.users, user.id) && !HasUsername(db.users, user.username)
    ensures Valid(db.(users := db.users + [user]))
  {
    var users := db.users + [user];
    forall k | k in db.bookings ensures HasUser(users, db.bookings[k].userId) {
      var i :| 0 <= i < |db.users| && db.users[i].id == db.bookings[k].userId;
      assert users[i] == db.users[i];
    }
  }

  /** `register`: a taken username fails; otherwise a USER account with the
      encoded password is stored and a token for it is issued. `userId` is the
      generated key and `now` the clock. */
  function Register(db: BookingDb, req: RegisterRequest, crypto: Crypto, userId: int, now: int): (r: Result<(BookingDb, AuthResponse), Failure>)
    ensures r.Err? <==> HasUsername(db.users, req.username)
    ensures r.Err? ==> r.error == Fail(UsernameTaken)
    ensures r.Ok? ==>
      var user := User(userId, req.username, crypto.encode(req.password), DefaultRole, Some(now), req.email, req.fullName);
      && r.value.0 == db.(users := db.users + [user])
      && r.value.1 == AuthResponse(crypto.issue(req.username, [DefaultRole]), req.username, DefaultRole)
    ensures r.Ok? && Valid(db) && !HasUser(db.users, userId) ==> Valid(r.value.0)
  {
    if FindByUsername(db.users, req.username).Some? then Err(Fail(UsernameTaken))
    else
      var user := User(userId, req.username, crypto.encode(req.password), DefaultRole, Some(now), req.email, req.fullName);
      if Valid(db) && !HasUser(db.users, userId) then
        AppendUserKeepsValid(db, user);
        Ok((db.(users := db.users + [user]), AuthResponse(crypto.issue(user.username, [user.role]), user.username, user.role)))
      else
        Ok((db.(users := db.users + [user]), AuthResponse(crypto.issue(user.username, [user.role]), user.username, user.role)))
  }

  /** `authenticate`: an unknown username and a wrong password fail alike;
      otherwise a token for the stored role is issued. */
  function Authenticate(db: BookingDb, req: AuthRequest, crypto: Crypto): (r: Result<AuthResponse, Failure>)
    ensures r.Ok? <==> HasUsername(db.users, req.username)
                       && crypto.matches(req.password, FindByUsername(db.users, req.username).value.password)
    ensures r.Err? ==> r.error == BadCredentials(InvalidLogin)
    ensures r.Ok? ==>
      var u := FindByUsername(db.users, req.username).value;
      r.value == AuthResponse(crypto.issue(u.username, [u.role]), u.username, u.role)
  {
    match FindByUsername(db.users, req.username)
    case None => Err(BadCredentials(InvalidLogin))
    case Some(u) =>
      if !crypto.matches(req.password, u.password) then Err(BadCredentials(InvalidLogin))
      else Ok(AuthResponse(crypto.issue(u.username, [u.role]), u.username, u.role))
  }

  /** `createUser`: as registration, but with the role the request names and
      without issuing a token. */
  function CreateUser(db: BookingDb, req: CreateUserRequest, crypto: Crypto, userId: int, now: int): (r: Result<(BookingDb, User), Failure>)
    ensures r.Err? <==> HasUsername(db.users, req.username)
    ensures r.Err? ==> r.error == Fail(UsernameTaken)
    ensures r.Ok? ==>
      && r.value.1 == User(userId, req.username, crypto.encode(req.password), req.role, Some(now), req.email, req.fullName)
      && r.value.0 == db.(users := db.users + [r.value.1])
    ensures r.Ok? && Valid(db) && !HasUser(db.users, userId) ==> Valid(r.value.0)
  {
    if FindByUsername(db.users, req.username).Some? then Err(Fail(UsernameTaken))
    else
      var user := User(userId, req.username, crypto.encode(req.password), req.role, Some(now), req.email, req.fullName);
      if Valid(db) && !HasUser(db.users, userId) then
        AppendUserKeepsValid(db, user);
        Ok((db.(users := db.users + [user]), user))
      else
        Ok((db.(users := db.users + [user]), user))
  }

  /** The users with the row of `user.id` replaced. */
  function ReplaceUser(users: seq<User>, user: User): seq<User> {
    Seqs.ReplaceBy(users, (x: User) => x.id, user)
  }

  /** The user with the request's non-null fields written over it; a blank
      password leaves the stored one. */
  function Updated(u: User, req: UpdateUserRequest, crypto: Crypto): User {
    u.(
      password := if req.password.Some? && !IsBlank(req.password.value) then crypto.encode(req.password.value) else u.password,
      email := if req.email.Some? then req.email else u.email,
      fullName := if req.fullName.Some? then req.fullName else u.fullName,
      role := req.role.GetOr(u.role))
  }

  /** `updateUser`: an unknown id fails; otherwise the non-null fields are
      written, the password only when it is not blank, and the id, username
      and creation time stay. */
  function UpdateUser(db: BookingDb, userId: int, req: UpdateUserRequest, crypto: Crypto): (r: Result<(BookingDb, User), Failure>)
    ensures r.Ok? <==> HasUser(db.users, userId)
    ensures r.Err? ==> r.error == Fail(UserNotFound)
    ensures r.Ok? ==>
      var was := FindUser(db.users, userId).value;
      var u := r.value.1;
      && u.id == userId && u.username == was.username && u.createdAt == was.createdAt
      && u.password == (if req.password.Some? && !IsBlank(req.password.value) then crypto.encode(req.password.value) else was.password)
      && u.email == (if req.email.Some? then req.email else was.email)
      && u.fullName == (if req.fullName.Some? then req.fullName else was.fullName)
      && u.role == (if req.role.Some? then req.role.value else was.role)
      && r.value.0 == db.(users := ReplaceUser(db.users, u))
    ensures r.Ok? && Valid(db) ==> Valid(r.value.0)
  {
    match FindUser(db.users, userId)
    case None => Err(Fail(UserNotFound))
    case Some(was) =>
      var u := Updated(was, req, crypto);
      var users := ReplaceUser(db.users, u);
      assert Valid(db) ==> Valid(db.(users := users)) by {
        if Valid(db) {
          forall i | 0 <= i < |db.users| && db.users[i].id == userId ensures db.users[i] == was {
            var j :| 0 <= j < |db.users| && db.users[j] == was;
          }
          forall k | k in db.bookings ensures HasUser(users, db.bookings[k].userId) {
            var i :| 0 <= i < |db.users| && db.users[i].id == db.bookings[k].userId;
            assert users[i].id == db.users[i].id;
          }
        }
      }
      Ok((db.(users := users), u))
  }

  /** `deleteUser`: an unknown id fails; otherwise the user goes and, by the
      cascade on the user's bookings, so does every booking of theirs. */
  function DeleteUser(db: BookingDb, userId: int): (r: Result<BookingDb, Failure>)
    ensures r.Ok? <==> HasUser(db.users, userId)
    ensures r.Err? ==> r.error == Fail(UserNotFound)
    ensures r.Ok? ==> forall u :: u in r.value.users <==> u in db.users && u.id != userId
    ensures r.Ok? ==> forall k :: k in r.value.bookings <==> k in db.bookings && db.bookings[k].userId != userId
    ensures r.Ok? ==> forall k :: k in r.value.bookings ==> r.value.bookings[k] == db.bookings[k]
    ensures r.Ok? && Valid(db) ==> Valid(r.value)
  {
    if FindUser(db.users, userId).None? then Err(Fail(UserNotFound))
    else
      var r := BookingDb(
        Seqs.Filter(db.users, (u: User) => u.id != userId),
        map k | k in db.bookings && db.bookings[k].userId != userId :: db.bookings[k]);
      if Valid(db) then
        DeleteUserKeepsValid(db, userId);
        Ok(r)
      else Ok(r)
  }

  lemma DeleteUserKeepsValid(db: BookingDb, userId: int)
    requires Valid(db)
    ensures Valid(BookingDb(
      Seqs.Filter(db.users, (u: User) => u.id != userId),
      map k | k in db.bookings && db.bookings[k].userId != userId :: db.bookings[k]))
  {
    var users := Seqs.Filter(db.users, (u: User) => u.id != userId);
    var bookings := map k | k in db.bookings && db.bookings[k].userId != userId :: db.bookings[k];
    FilterKeepsUsersDistinct(db.users, (u: User) => u.id != userId);
    forall k | k in bookings ensures HasUser(users, bookings[k].userId) {
      var i :| 0 <= i < |db.users| && db.users[i].id == db.bookings[k].userId;
      assert db.users[i] in db.users;
      assert db.users[i] in users;
    }
  }

  lemma FilterKeepsUsersDistinct(users: seq<User>, p: User -> bool)
    requires UserIdsDistinct(users) && UsernamesDistinct(users)
    ensures UserIdsDistinct(Seqs.Filter(users, p)) && UsernamesDistinct(Seqs.Filter(users, p))
  {
    Seqs.FilterKeepsDistinct(users, p, (u: User) => u.id);
    Seqs.FilterKeepsDistinct(users, p, (u: User) => u.username);
  }

  /** With a sound encoder, a freshly registered account can log in with the
      password it registered and gets a USER token. */
  lemma RegisterThenAuthenticate(db: BookingDb, req: RegisterRequest, crypto: Crypto, userId: int, now: int)
    requires Sound(crypto)
    requires Register(db, req, crypto, userId, now).Ok?
    ensures Authenticate(Register(db, req, crypto, userId, now).value.0, AuthRequest(req.username, req.password), crypto)
         == Ok(AuthResponse(crypto.issue(req.username, [DefaultRole]), req.username, DefaultRole))
  {
    var after := Register(db, req, crypto, userId, now).value.0;
    FindAppendedUsername(db.users, after.users[|db.users|]);
  }

  /** A username not in the table is found at the row appended for it. */
  lemma {:induction false} FindAppendedUsername(users: seq<User>, user: User)
    requires !HasUsername(users, user.username)
    ensures FindByUsername(users + [user], user.username) == Some(user)
    decreases |users|
  {
    if |users| > 0 {
      assert (users + [user])[1..] == users[1..] + [user];
      assert !HasUsername(users[1..], user.username) by {
        forall i | 0 <= i < |users[1..]| ensures users[1..][i].username != user.username {
          assert users[i + 1].username != user.username;
        }
      }
      FindAppendedUsername(users[1..], user);
    }
  }

  /** An update that names no field (or only a blank password) changes
      nothing. */
  lemma EmptyUpdateIsIdentity(db: BookingDb, userId: int, password: Option<string>, crypto: Crypto)
    requires Valid(db) && HasUser(db.users, userId)
    requires password.None? || IsBlank(password.value)
    ensures UpdateUser(db, userId, UpdateUserRequest(password, None, None, None), crypto) == Ok((db, FindUser(db.users, userId).value))
  {
    var was := FindUser(db.users, userId).value;
    var users := ReplaceUser(db.users, was);
    forall i | 0 <= i < |db.users| ensures users[i] == db.users[i] {
      if db.users[i].id == userId {
        var j :| 0 <= j < |db.users| && db.users[j] == was;
      }
    }
    assert users == db.users;
  }

  /** A deleted account is gone: its username no longer resolves and a
      second delete fails. */
  lemma DeleteUserIsFinal(db: BookingDb, userId: int)
    requires Valid(db) && HasUser(db.users, userId)
    ensures var after := DeleteUser(db, userId).value;
      && DeleteUser(after, userId) == Err(Fail(UserNotFound))
      && GetUserByUsername(after, FindUser(db.users, userId).value.username).Err?
  {
    var after := DeleteUser(db, userId).value;
    var gone := FindUser(db.users, userId).value;
    forall i | 0 <= i < |after.users| ensures after.users[i].username != gone.username {
      var u := after.users[i];
      assert u in db.users && u.id != userId;
      var a :| 0 <= a < |db.users| && db.users[a] == u;
      var b :| 0 <= b < |db.users| && db.users[b] == gone;
      assert a != b;
    }
  }
}
