/** The store's tables as rows, the workflows' outcomes, and the guards every workflow
    runs before it reads or writes anything else. */
module Schema {
  import opened Seqs
  import opened Dates

  datatype User = User(userId: int, name: string, password: string, userType: string)

  /** A hotel row; its coordinates and establishment date serve only the distance query. */
  datatype Hotel = Hotel(hotelId: int, hotelName: string, managerUserId: int)

  datatype Room = Room(hotelId: int, roomNumber: int, price: int, imageUrl: string)

  datatype Booking = Booking(bookingId: int, customerId: int, hotelId: int, roomNumber: int, bookingDate: Date)

  /** A RoomUpdatesLog row; `updatedOn` is the clock reading in milliseconds. */
  datatype RoomUpdate = RoomUpdate(updateNumber: int, managerId: int, hotelId: int, roomNumber: int, updatedOn: int)

  datatype Repair = Repair(repairId: int, companyId: int, hotelId: int, roomNumber: int, repairDate: Date)

  datatype RepairRequest = RepairRequest(requestId: int, managerId: int, repairId: int)

  /** Why a workflow stopped: the role or ownership check failed, the operator's entries
      ran out before a prompt accepted one, or the room is taken on that date. */
  datatype Failure = PermissionDenied | NotYourHotel | InputExhausted | RoomUnavailable

  datatype Result<+T> = Ok(value: T) | Err(failure: Failure)

  /** The two user types the manager workflows admit (compared exactly, case included). */
  predicate IsPrivilegedType(t: string) {
    t == "manager" || t == "admin"
  }

  /** The role check: the count of user rows with this id and a privileged type is not zero. */
  predicate Privileged(users: seq<User>, userId: int)
    ensures Privileged(users, userId) <==> exists u :: u in users && u.userId == userId && IsPrivilegedType(u.userType)
  {
    Count(users, (u: User) => u.userId == userId && IsPrivilegedType(u.userType)) > 0
  }

  /** The ownership check: the count of hotel rows with this id and this manager is not zero. */
  predicate Manages(hotels: seq<Hotel>, userId: int, hotelId: int)
    ensures Manages(hotels, userId, hotelId) <==> exists h :: h in hotels && h.hotelId == hotelId && h.managerUserId == userId
  {
    Count(hotels, (h: Hotel) => h.managerUserId == userId && h.hotelId == hotelId) > 0
  }

  /** The room check of the update and repair prompts. */
  predicate RoomExists(rooms: seq<Room>, hotelId: int, roomNumber: int)
    ensures RoomExists(rooms, hotelId, roomNumber) <==> exists r :: r in rooms && r.hotelId == hotelId && r.roomNumber == roomNumber
  {
    Count(rooms, (r: Room) => r.hotelId == hotelId && r.roomNumber == roomNumber) > 0
  }

  predicate HotelExists(hotels: seq<Hotel>, hotelId: int) {
    exists h :: h in hotels && h.hotelId == hotelId
  }

  /** Log-in: the typed id comes back when some user row matches both the id and the
      password, and nothing (null) otherwise. */
  function LogIn(users: seq<User>, userId: int, password: string): (r: Option<int>)
    ensures r.Some? <==> exists u :: u in users && u.userId == userId && u.password == password
    ensures r.Some? ==> r.value == userId
  {
    if Count(users, (u: User) => u.userId == userId && u.password == password) > 0 then Some(userId) else None
  }

  /** The hotel the `Enter hotelID` prompt settles on: the first entry the caller manages. */
  function ManagedChoice(hotels: seq<Hotel>, userId: int, entries: seq<int>): Option<int> {
    FirstAccepted(entries, h => Manages(hotels, userId, h))
  }

  /** The room the `Enter room number` prompt settles on: the first entry with a room row in that hotel. */
  function RoomChoice(rooms: seq<Room>, hotelId: int, entries: seq<int>): Option<int> {
    FirstAccepted(entries, n => RoomExists(rooms, hotelId, n))
  }

  /** A user row that registration writes never passes the role check on its own. */
  lemma RegisteredCustomerNotPrivileged(users: seq<User>, u: User)
    requires u.userType == "Customer"
    requires forall v :: v in users ==> v.userId != u.userId
    ensures !Privileged(users + [u], u.userId)
  {
    assert forall v :: v in users + [u] ==> v in users || v == u;
  }

  /** A user who has just registered can log in with the password given at registration. */
  lemma RegisteredUserCanLogIn(users: seq<User>, u: User)
    ensures LogIn(users + [u], u.userId, u.password) == Some(u.userId)
  {
    assert u in users + [u];
  }
}
