/** The booking service's persistent state: users and their bookings, and
    the failures its operations raise. */
module BookingModel {
  import opened Wrappers

  /** The three values the service writes to a booking's status. */
  datatype BookingStatus = Pending | Confirmed | Cancelled

  /** The status changes the service performs: a new booking is PENDING; the
      saga moves it to CONFIRMED or CANCELLED, and a cancel moves PENDING or
      CONFIRMED to CANCELLED. CANCELLED is final. */
  predicate CanMove(from: BookingStatus, to: BookingStatus) {
    match from
    case Pending => to == Confirmed || to == Cancelled
    case Confirmed => to == Cancelled
    case Cancelled => false
  }

  /** A user row. `createdAt`, `email` and `fullName` are nullable columns. */
  datatype User = User(
    id: int,
    username: string,
    password: string,
    role: string,
    createdAt: Option<int>,
    email: Option<string>,
    fullName: Option<string>)

  /** A booking row. The total price is in integer cents. */
  datatype Booking = Booking(
    id: int,
    userId: int,
    roomId: int,
    startDate: int,
    endDate: int,
    status: BookingStatus,
    createdAt: int,
    requestId: string,
    hotelId: Option<int>,
    totalPrice: Option<int>,
    updatedAt: Option<int>)

  /** The tables of the booking service: users in row order, bookings by id. */
  datatype BookingDb = BookingDb(users: seq<User>, bookings: map<int, Booking>)

  predicate UserIdsDistinct(users: seq<User>) {
    forall i, j :: 0 <= i < j < |users| ==> users[i].id != users[j].id
  }

  predicate UsernamesDistinct(users: seq<User>) {
    forall i, j :: 0 <= i < j < |users| ==> users[i].username != users[j].username
  }

  predicate HasUser(users: seq<User>, id: int) {
    exists i :: 0 <= i < |users| && users[i].id == id
  }

  predicate HasUsername(users: seq<User>, username: string) {
    exists i :: 0 <= i < |users| && users[i].username == username
  }

  /** The database constraints: primary keys, the unique username, the NOT
      NULL foreign key from booking to user and the unique request id. */
  predicate Valid(db: BookingDb) {
    && UserIdsDistinct(db.users)
    && UsernamesDistinct(db.users)
    && (forall k :: k in db.bookings ==> db.bookings[k].id == k)
    && (forall k :: k in db.bookings ==> HasUser(db.users, db.bookings[k].userId))
    && (forall k1, k2 :: k1 in db.bookings && k2 in db.bookings && k1 != k2 ==>
          db.bookings[k1].requestId != db.bookings[k2].requestId)
  }

  /** `findByUsername` */
  function FindByUsername(users: seq<User>, username: string): (r: Option<User>)
    ensures r.Some? <==> HasUsername(users, username)
    ensures r.Some? ==> r.value in users && r.value.username == username
    decreases |users|
  {
    if |users| == 0 then None
    else if users[0].username == username then Some(users[0])
    else
      var r := FindByUsername(users[1..], username);
      assert HasUsername(users, username) ==> HasUsername(users[1..], username) by {
        if HasUsername(users, username) {
          var i :| 0 <= i < |users| && users[i].username == username;
          assert i > 0 && users[1..][i - 1].username == username;
        }
      }
      assert r.Some? ==> HasUsername(users, username) by {
        if r.Some? {
          var i :| 0 <= i < |users[1..]| && users[1..][i].username == username;
          assert users[i + 1].username == username;
        }
      }
      r
  }

  /** `findById` on the users table. */
  function FindUser(users: seq<User>, id: int): (r: Option<User>)
    ensures r.Some? <==> HasUser(users, id)
    ensures r.Some? ==> r.value in users && r.value.id == id
    decreases |users|
  {
    if |users| == 0 then None
    else if users[0].id == id then Some(users[0])
    else
      var r := FindUser(users[1..], id);
      assert HasUser(users, id) ==> HasUser(users[1..], id) by {
        if HasUser(users, id) {
          var i :| 0 <= i < |users| && users[i].id == id;
          assert i > 0 && users[1..][i - 1].id == id;
        }
      }
      assert r.Some? ==> HasUser(users, id) by {
        if r.Some? {
          var i :| 0 <= i < |users[1..]| && users[1..][i].id == id;
          assert users[i + 1].id == id;
        }
      }
      r
  }

  /** With distinct usernames the lookup finds the one row carrying it. */
  lemma FindByUsernameAt(users: seq<User>, i: int)
    requires UsernamesDistinct(users) && 0 <= i < |users|
    ensures FindByUsername(users, users[i].username) == Some(users[i])
  {
    var r := FindByUsername(users, users[i].username);
    var j :| 0 <= j < |users| && users[j] == r.value;
    assert users[j].username == users[i].username;
    assert j == i;
  }

  /** With distinct ids the lookup by id finds the one row carrying it. */
  lemma FindUserAt(users: seq<User>, i: int)
    requires UserIdsDistinct(users) && 0 <= i < |users|
    ensures FindUser(users, users[i].id) == Some(users[i])
  {
    var r := FindUser(users, users[i].id);
    var j :| 0 <= j < |users| && users[j] == r.value;
    assert j == i;
  }

  /** A field error of bean validation: the field name and its (nullable)
      default message. */
  datatype FieldError = FieldError(field: string, defaultMessage: Option<string>)

  /** The exceptions that reach the booking service's exception handler,
      by the handler that catches them. `Runtime` covers every other runtime
      exception (a missing price unboxed to a number among them) with its
      nullable message. */
  datatype Failure =
    | Feign(status: int, message: Option<string>)
    | IllegalArgument(reason: string)
    | AccessDenied
    | BadCredentials(reason: string)
    | InvalidArguments(errors: seq<FieldError>)
    | Runtime(message: Option<string>)

  const UserNotFound := "User not found"
  const BookingNotFound := "Booking not found"
  const UsernameTaken := "Username already exists"
  // kept in pieces so that what the message says can be shown piece by piece
  const NotOwner := "Access denied: " + "This booking " + "belongs to " + "another user"

  /** A runtime exception with a message. */
  function Fail(message: string): (f: Failure)
    ensures f.Runtime? && f.message == Some(message)
  {
    Runtime(Some(message))
  }
}
