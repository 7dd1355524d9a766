/** The report queries: each is a selection over the tables followed by `ORDER BY` and,
    for the top-five reports, `LIMIT 5`. A join on a key column is modelled as a lookup of
    the first row with that key (the key columns are the tables' primary keys). */
module Reports {
  import opened Seqs
  import opened Ordering
  import opened Dates
  import opened Schema

  /** The price of the room row with this hotel and room number. */
  function RoomPrice(rooms: seq<Room>, hotelId: int, roomNumber: int): (p: Option<int>)
    ensures p.None? <==> !RoomExists(rooms, hotelId, roomNumber)
    ensures p.Some? ==> exists r :: r in rooms && r.hotelId == hotelId && r.roomNumber == roomNumber && r.price == p.value
  {
    match FirstAccepted(rooms, (r: Room) => r.hotelId == hotelId && r.roomNumber == roomNumber)
    case Some(r) => Some(r.price)
    case None => None
  }

  /** The name of the user row with this id. */
  function UserName(users: seq<User>, userId: int): (n: Option<string>)
    ensures n.None? <==> forall u :: u in users ==> u.userId != userId
    ensures n.Some? ==> exists u :: u in users && u.userId == userId && u.name == n.value
  {
    match FirstAccepted(users, (u: User) => u.userId == userId)
    case Some(u) => Some(u.name)
    case None => None
  }

  // ---- A customer's bookings -------------------------------------------------------

  /** A row of the customer's booking report: the booking and the price of its room. */
  datatype BookingLine = BookingLine(hotelId: int, roomNumber: int, bookingDate: Date, billingInfo: int)

  function CustomerLine(rooms: seq<Room>, customerId: int, b: Booking): Option<BookingLine> {
    if b.customerId != customerId then None
    else match RoomPrice(rooms, b.hotelId, b.roomNumber)
      case Some(p) => Some(BookingLine(b.hotelId, b.roomNumber, b.bookingDate, p))
      case None => None
  }

  /** The join of the customer's bookings with their rooms, in table order. */
  function CustomerLines(bookings: seq<Booking>, rooms: seq<Room>, customerId: int): (r: seq<BookingLine>)
    ensures forall l: BookingLine :: l in r <==>
              exists b :: b in bookings && b.customerId == customerId && RoomPrice(rooms, b.hotelId, b.roomNumber) == Some(l.billingInfo)
                          && l == BookingLine(b.hotelId, b.roomNumber, b.bookingDate, l.billingInfo)
    ensures forall l :: multiset(r)[l] == BookingsBilledAs(bookings, rooms, customerId, l)
  {
    var f := (b: Booking) => CustomerLine(rooms, customerId, b);
    var r := MapFilter(bookings, f);
    forall l ensures multiset(r)[l] == BookingsBilledAs(bookings, rooms, customerId, l) {
      CustomerLinesCounted(bookings, rooms, customerId, l);
    }
    assert forall l: BookingLine :: l in r ==> exists b :: b in bookings && b.customerId == customerId && RoomPrice(rooms, b.hotelId, b.roomNumber) == Some(l.billingInfo) && l == BookingLine(b.hotelId, b.roomNumber, b.bookingDate, l.billingInfo) by {
      forall l: BookingLine | l in r
        ensures exists b :: b in bookings && b.customerId == customerId && RoomPrice(rooms, b.hotelId, b.roomNumber) == Some(l.billingInfo)
                            && l == BookingLine(b.hotelId, b.roomNumber, b.bookingDate, l.billingInfo)
      {
        var k :| 0 <= k < |r| && r[k] == l;
        var j :| 0 <= j < |bookings| && f(bookings[j]) == Some(l);
        assert bookings[j] in bookings;
      }
    }
    assert forall l: BookingLine :: (exists b :: b in bookings && b.customerId == customerId && RoomPrice(rooms, b.hotelId, b.roomNumber) == Some(l.billingInfo) && l == BookingLine(b.hotelId, b.roomNumber, b.bookingDate, l.billingInfo)) ==> l in r by {
      forall l: BookingLine | (exists b :: b in bookings && b.customerId == customerId && RoomPrice(rooms, b.hotelId, b.roomNumber) == Some(l.billingInfo)
                                           && l == BookingLine(b.hotelId, b.roomNumber, b.bookingDate, l.billingInfo))
        ensures l in r
      {
        var b :| b in bookings && b.customerId == customerId && RoomPrice(rooms, b.hotelId, b.roomNumber) == Some(l.billingInfo)
                 && l == BookingLine(b.hotelId, b.roomNumber, b.bookingDate, l.billingInfo);
        var j :| 0 <= j < |bookings| && bookings[j] == b;
        assert f(bookings[j]) == Some(l);
      }
    }
    r
  }

  /** The number of the customer's bookings whose priced row is `l`. */
  function BookingsBilledAs(bookings: seq<Booking>, rooms: seq<Room>, customerId: int, l: BookingLine): nat
    decreases |bookings|
  {
    if bookings == [] then 0
    else (if CustomerLine(rooms, customerId, bookings[0]) == Some(l) then 1 else 0)
         + BookingsBilledAs(bookings[1..], rooms, customerId, l)
  }

  /** The join yields one line per priced booking of the customer. */
  lemma {:induction false} CustomerLinesCounted(bookings: seq<Booking>, rooms: seq<Room>, customerId: int, l: BookingLine)
    ensures multiset(MapFilter(bookings, (b: Booking) => CustomerLine(rooms, customerId, b)))[l]
            == BookingsBilledAs(bookings, rooms, customerId, l)
    decreases |bookings|
  {
    if bookings != [] {
      CustomerLinesCounted(bookings[1..], rooms, customerId, l);
    }
  }

  function LineKey(l: BookingLine): int {
    DateKey(l.bookingDate)
  }

  /** `ORDER BY bookingDate LIMIT 5`, re-sorted ascending, over any rows: the five
      EARLIEST (all of them when there are fewer), earliest first. */
  function EarliestFive(lines: seq<BookingLine>): (r: seq<BookingLine>)
    ensures |r| == Min(5, |lines|)
    ensures forall i, j :: 0 <= i < j < |r| ==> OnOrBefore(r[i].bookingDate, r[j].bookingDate)
    ensures multiset(r) <= multiset(lines)
    ensures forall x, y :: x in r && y in multiset(lines) - multiset(r) ==> OnOrBefore(x.bookingDate, y.bookingDate)
    ensures |lines| <= 5 ==> multiset(r) == multiset(lines)
  {
    var r := TopThenSort(lines, LineKey, 5, LineKey);
    LineKeysChronological();
    r
  }

  /** Comparing report lines by key is comparing their dates. */
  lemma LineKeysChronological()
    ensures forall a, b :: LineKey(a) <= LineKey(b) ==> OnOrBefore(a.bookingDate, b.bookingDate)
  {
    forall a, b | LineKey(a) <= LineKey(b) ensures OnOrBefore(a.bookingDate, b.bookingDate) {
      DateKeyOrder(a.bookingDate, b.bookingDate);
    }
  }

  /** The customer's booking report ("last 5 recent bookings"): `EarliestFive` of the
      customer's priced bookings. */
  function RecentBookings(bookings: seq<Booking>, rooms: seq<Room>, customerId: int): (r: seq<BookingLine>)
    ensures |r| == Min(5, |CustomerLines(bookings, rooms, customerId)|)
    ensures forall i, j :: 0 <= i < j < |r| ==> OnOrBefore(r[i].bookingDate, r[j].bookingDate)
    ensures multiset(r) <= multiset(CustomerLines(bookings, rooms, customerId))
    ensures forall x, y :: x in r && y in multiset(CustomerLines(bookings, rooms, customerId)) - multiset(r)
              ==> OnOrBefore(x.bookingDate, y.bookingDate)
    ensures |CustomerLines(bookings, rooms, customerId)| <= 5 ==> multiset(r) == multiset(CustomerLines(bookings, rooms, customerId))
  {
    EarliestFive(CustomerLines(bookings, rooms, customerId))
  }

  // ---- A manager's recent room updates ---------------------------------------------

  function UpdatedOn(u: RoomUpdate): int {
    u.updatedOn
  }

  function Newest(u: RoomUpdate): int {
    -u.updatedOn
  }

  function ByManager(managerId: int, u: RoomUpdate): Option<RoomUpdate> {
    if u.managerId == managerId then Some(u) else None
  }

  /** The caller's log rows, in table order. */
  function ManagerUpdates(log: seq<RoomUpdate>, managerId: int): (r: seq<RoomUpdate>)
    ensures forall u :: u in r <==> u in log && u.managerId == managerId
    ensures forall u :: multiset(r)[u] == if u.managerId == managerId then multiset(log)[u] else 0
  {
    var f := (u: RoomUpdate) => ByManager(managerId, u);
    var r := MapFilter(log, f);
    forall u ensures multiset(r)[u] == if u.managerId == managerId then multiset(log)[u] else 0 {
      ManagerUpdatesCounted(log, managerId, u);
    }
    assert forall u :: u in r ==> u in log && u.managerId == managerId by {
      forall u | u in r ensures u in log && u.managerId == managerId {
        var k :| 0 <= k < |r| && r[k] == u;
        var j :| 0 <= j < |log| && f(log[j]) == Some(u);
      }
    }
    assert forall u :: u in log && u.managerId == managerId ==> u in r by {
      forall u | u in log && u.managerId == managerId ensures u in r {
        var j :| 0 <= j < |log| && log[j] == u;
        assert f(log[j]) == Some(u);
      }
    }
    r
  }

  /** Selecting the caller's rows keeps each of them as often as the log holds it. */
  lemma {:induction false} ManagerUpdatesCounted(log: seq<RoomUpdate>, managerId: int, u: RoomUpdate)
    ensures multiset(MapFilter(log, (v: RoomUpdate) => ByManager(managerId, v)))[u]
            == if u.managerId == managerId then multiset(log)[u] else 0
    decreases |log|
  {
    if log != [] {
      assert log == [log[0]] + log[1..];
      ManagerUpdatesCounted(log[1..], managerId, u);
    }
  }

  /** `ORDER BY updatedOn DESC LIMIT 5`, re-sorted ascending, over any log rows: the five
      latest (all when fewer), oldest first. */
  function LatestFive(rows: seq<RoomUpdate>): (r: seq<RoomUpdate>)
    ensures |r| == Min(5, |rows|)
    ensures forall i, j :: 0 <= i < j < |r| ==> r[i].updatedOn <= r[j].updatedOn
    ensures multiset(r) <= multiset(rows)
    ensures forall x, y :: x in r && y in multiset(rows) - multiset(r) ==> y.updatedOn <= x.updatedOn
  {
    NewestFirstThenOldest(rows);
    TopThenSort(rows, Newest, 5, UpdatedOn)
  }

  /** `TopThenSort`'s promises for the update log, in terms of the clock readings. */
  lemma NewestFirstThenOldest(rows: seq<RoomUpdate>)
    ensures var r := TopThenSort(rows, Newest, 5, UpdatedOn);
            && (forall i, j :: 0 <= i < j < |r| ==> r[i].updatedOn <= r[j].updatedOn)
            && (forall x, y :: x in r && y in multiset(rows) - multiset(r) ==> y.updatedOn <= x.updatedOn)
  {
    var r := TopThenSort(rows, Newest, 5, UpdatedOn);
    forall i, j | 0 <= i < j < |r| ensures r[i].updatedOn <= r[j].updatedOn {
      assert UpdatedOn(r[i]) <= UpdatedOn(r[j]);
    }
    forall x, y | x in r && y in multiset(rows) - multiset(r) ensures y.updatedOn <= x.updatedOn {
      assert Newest(x) <= Newest(y);
    }
  }

  /** The recent-updates report: `LatestFive` of the caller's log rows. */
  function RecentUpdates(log: seq<RoomUpdate>, managerId: int): (r: seq<RoomUpdate>)
    ensures |r| == Min(5, |ManagerUpdates(log, managerId)|)
    ensures forall i, j :: 0 <= i < j < |r| ==> r[i].updatedOn <= r[j].updatedOn
    ensures multiset(r) <= multiset(ManagerUpdates(log, managerId))
    ensures forall x, y :: x in r && y in multiset(ManagerUpdates(log, managerId)) - multiset(r) ==> y.updatedOn <= x.updatedOn
    ensures forall u :: u in r ==> u in log && u.managerId == managerId
  {
    var r := LatestFive(ManagerUpdates(log, managerId));
    assert forall u :: u in r ==> u in multiset(ManagerUpdates(log, managerId)) by {
      forall u | u in r ensures u in multiset(ManagerUpdates(log, managerId)) {
        assert u in multiset(r);
      }
    }
    r
  }

  // ---- A hotel's regular customers -------------------------------------------------

  /** A row of the regular-customers report. */
  datatype CustomerCount = CustomerCount(name: string, numBookings: nat)

  /** The name joined to a booking of the hotel, if its customer has a user row. */
  function BookerName(users: seq<User>, hotelId: int, b: Booking): Option<string> {
    if b.hotelId == hotelId then UserName(users, b.customerId) else None
  }

  /** One name per booking of the hotel, in table order (the joined rows' name column). */
  function BookerNames(users: seq<User>, bookings: seq<Booking>, hotelId: int): (r: seq<string>)
    ensures forall n :: n in r <==> exists b :: b in bookings && BookerName(users, hotelId, b) == Some(n)
  {
    var f := (b: Booking) => BookerName(users, hotelId, b);
    var r := MapFilter(bookings, f);
    assert forall n :: n in r ==> exists b :: b in bookings && BookerName(users, hotelId, b) == Some(n) by {
      forall n | n in r ensures exists b :: b in bookings && BookerName(users, hotelId, b) == Some(n) {
        var k :| 0 <= k < |r| && r[k] == n;
        var j :| 0 <= j < |bookings| && f(bookings[j]) == Some(n);
        assert bookings[j] in bookings;
      }
    }
    assert forall n :: (exists b :: b in bookings && BookerName(users, hotelId, b) == Some(n)) ==> n in r by {
      forall n | exists b :: b in bookings && BookerName(users, hotelId, b) == Some(n) ensures n in r {
        var b :| b in bookings && BookerName(users, hotelId, b) == Some(n);
        var j :| 0 <= j < |bookings| && bookings[j] == b;
        assert f(bookings[j]) == Some(n);
      }
    }
    r
  }

  /** How many of the hotel's bookings belong to a customer whose user row has this name. */
  function BookingsNamed(users: seq<User>, bookings: seq<Booking>, hotelId: int, n: string): nat
    decreases |bookings|
  {
    if bookings == [] then 0
    else (if BookerName(users, hotelId, bookings[0]) == Some(n) then 1 else 0)
         + BookingsNamed(users, bookings[1..], hotelId, n)
  }

  /** The group size `COUNT(*)` reports for a name is the number of the hotel's bookings
      made under that name. */
  lemma {:induction false} GroupSizeIsBookingsNamed(users: seq<User>, bookings: seq<Booking>, hotelId: int, n: string)
    ensures multiset(BookerNames(users, bookings, hotelId))[n] == BookingsNamed(users, bookings, hotelId, n)
    decreases |bookings|
  {
    if bookings != [] {
      GroupSizeIsBookingsNamed(users, bookings[1..], hotelId, n);
    }
  }

  /** The distinct values of `s`, in order of first occurrence. */
  function Distinct(s: seq<string>): (r: seq<string>)
    ensures NoDuplicates(r)
    ensures forall x :: x in r <==> x in s
    decreases |s|
  {
    if s == [] then []
    else
      var d := Distinct(s[..|s| - 1]);
      assert s == s[..|s| - 1] + [s[|s| - 1]];
      if s[|s| - 1] in d then d else d + [s[|s| - 1]]
  }

  /** The name column of a report. */
  function NamesOf(r: seq<CustomerCount>): (ns: seq<string>)
    ensures |ns| == |r|
    ensures forall i :: 0 <= i < |r| ==> ns[i] == r[i].name
  {
    seq(|r|, i requires 0 <= i < |r| => r[i].name)
  }

  /** `GROUP BY name` with `COUNT(*)`: one row per distinct name. */
  function Groups(names: seq<string>): (g: seq<CustomerCount>)
    ensures forall i :: 0 <= i < |g| ==> g[i].name in names && g[i].numBookings == multiset(names)[g[i].name]
    ensures forall n :: n in names ==> n in NamesOf(g)
    ensures NoDuplicates(g)
    ensures |g| == |Distinct(names)|
  {
    var d := Distinct(names);
    var g := seq(|d|, i requires 0 <= i < |d| => CustomerCount(d[i], multiset(names)[d[i]]));
    assert forall n :: n in names ==> n in NamesOf(g) by {
      forall n | n in names ensures n in NamesOf(g) {
        var i :| 0 <= i < |d| && d[i] == n;
        assert NamesOf(g)[i] == n;
      }
    }
    g
  }

  function MostBookings(c: CustomerCount): int {
    -(c.numBookings as int)
  }

  /** `ORDER BY NumBookings DESC LIMIT 5` over the groups of a name column: at most five
      distinct names with their exact counts, most frequent first (`TopGroupsComplete`
      states what it leaves out). */
  function TopGroups(names: seq<string>): (r: seq<CustomerCount>)
    ensures |r| == Min(5, |Distinct(names)|)
    ensures forall i, j :: 0 <= i < j < |r| ==> r[i].numBookings >= r[j].numBookings
    ensures forall i :: 0 <= i < |r| ==> r[i].name in names && r[i].numBookings == multiset(names)[r[i].name]
    ensures NoDuplicates(NamesOf(r))
  {
    var g := Groups(names);
    var r := RankTop(g);
    RankedRowsAreGroups(names, g, r);
    RankedNamesDistinct(names, g, r);
    r
  }

  /** The ranking leaves out no name that occurs more often than one it shows, and shows
      every name when there are at most five. */
  lemma TopGroupsComplete(names: seq<string>)
    ensures forall i, n :: 0 <= i < |TopGroups(names)| && n in names && n !in NamesOf(TopGroups(names))
              ==> multiset(names)[n] <= TopGroups(names)[i].numBookings
    ensures |Distinct(names)| <= 5 ==> forall n :: n in names ==> n in NamesOf(TopGroups(names))
  {
    var g := Groups(names);
    var r := RankTop(g);
    UnlistedNamesNotMoreFrequent(names, g, r);
    FewNamesAllListed(names, g, r);
  }

  /** `ORDER BY NumBookings DESC LIMIT 5` over any group rows. */
  function RankTop(g: seq<CustomerCount>): (r: seq<CustomerCount>)
    ensures |r| == Min(5, |g|)
    ensures forall i, j :: 0 <= i < j < |r| ==> r[i].numBookings >= r[j].numBookings
    ensures multiset(r) <= multiset(g)
    ensures forall i, y :: 0 <= i < |r| && y in multiset(g) - multiset(r) ==> y.numBookings <= r[i].numBookings
  {
    MostBookingsFirst(g);
    OrderByLimit(g, MostBookings, 5)
  }

  /** `OrderByLimit`'s promises for the group rows, in terms of the counts. */
  lemma MostBookingsFirst(g: seq<CustomerCount>)
    ensures var r := OrderByLimit(g, MostBookings, 5);
            && (forall i, j :: 0 <= i < j < |r| ==> r[i].numBookings >= r[j].numBookings)
            && (forall i, y :: 0 <= i < |r| && y in multiset(g) - multiset(r) ==> y.numBookings <= r[i].numBookings)
  {
    var r := OrderByLimit(g, MostBookings, 5);
    forall i, j | 0 <= i < j < |r| ensures r[i].numBookings >= r[j].numBookings {
      assert MostBookings(r[i]) <= MostBookings(r[j]);
    }
    forall i, y | 0 <= i < |r| && y in multiset(g) - multiset(r) ensures y.numBookings <= r[i].numBookings {
      assert r[i] in r;
      assert MostBookings(r[i]) <= MostBookings(y);
    }
  }

  /** Every row kept from the groups is the group of a name with its count. */
  lemma RankedRowsAreGroups(names: seq<string>, g: seq<CustomerCount>, r: seq<CustomerCount>)
    requires g == Groups(names) && multiset(r) <= multiset(g)
    ensures forall i :: 0 <= i < |r| ==> r[i].name in names && r[i].numBookings == multiset(names)[r[i].name]
  {
    forall i | 0 <= i < |r| ensures r[i].name in names && r[i].numBookings == multiset(names)[r[i].name] {
      assert r[i] in multiset(r);
      assert r[i] in g;
      var k :| 0 <= k < |g| && g[k] == r[i];
    }
  }

  /** No name is kept twice. */
  lemma RankedNamesDistinct(names: seq<string>, g: seq<CustomerCount>, r: seq<CustomerCount>)
    requires g == Groups(names) && multiset(r) <= multiset(g)
    requires forall i :: 0 <= i < |r| ==> r[i].numBookings == multiset(names)[r[i].name]
    ensures NoDuplicates(NamesOf(r))
  {
    NoDuplicatesMultiplicity(g);
    NoDuplicatesMultiplicity(r);
    forall i, j | 0 <= i < j < |r| ensures NamesOf(r)[i] != NamesOf(r)[j] {
      if r[i].name == r[j].name {
        assert r[i] == r[j];
      }
    }
  }

  /** A name left out occurs no more often than any name kept. */
  lemma UnlistedNamesNotMoreFrequent(names: seq<string>, g: seq<CustomerCount>, r: seq<CustomerCount>)
    requires g == Groups(names) && r == RankTop(g)
    ensures forall i, n :: 0 <= i < |r| && n in names && n !in NamesOf(r) ==> multiset(names)[n] <= r[i].numBookings
  {
    forall i, n | 0 <= i < |r| && n in names && n !in NamesOf(r)
      ensures multiset(names)[n] <= r[i].numBookings
    {
      var y := GroupOf(names, g, n);
      assert y !in r by {
        forall k | 0 <= k < |r| ensures r[k] != y {
          assert NamesOf(r)[k] != n;
        }
      }
      assert y in multiset(g) - multiset(r);
    }
  }

  /** With at most five names, every name is kept. */
  lemma FewNamesAllListed(names: seq<string>, g: seq<CustomerCount>, r: seq<CustomerCount>)
    requires g == Groups(names) && r == RankTop(g)
    ensures |Distinct(names)| <= 5 ==> forall n :: n in names ==> n in NamesOf(r)
  {
    if |Distinct(names)| <= 5 {
      assert |multiset(r)| == |multiset(g)|;
      SubMultisetOfSameSize(multiset(r), multiset(g));
      forall n | n in names ensures n in NamesOf(r) {
        var y := GroupOf(names, g, n);
        assert y in multiset(r);
        var k :| 0 <= k < |r| && r[k] == y;
        assert NamesOf(r)[k] == n;
      }
    }
  }

  /** The group row of a name that occurs in the column. */
  lemma GroupOf(names: seq<string>, g: seq<CustomerCount>, n: string) returns (y: CustomerCount)
    requires g == Groups(names) && n in names
    ensures y in g && y == CustomerCount(n, multiset(names)[n])
  {
    var k :| 0 <= k < |g| && NamesOf(g)[k] == n;
    y := g[k];
  }

  /** The regular-customers report for a hotel: `TopGroups` of the names joined to its bookings.
      Bookings by two users who share a name are counted together. */
  function RegularCustomers(users: seq<User>, bookings: seq<Booking>, hotelId: int): seq<CustomerCount> {
    TopGroups(BookerNames(users, bookings, hotelId))
  }

  /** The report has one row per distinct name, at most five, no name twice, most bookings first. */
  lemma RegularCustomersRanked(users: seq<User>, bookings: seq<Booking>, hotelId: int)
    ensures var r := RegularCustomers(users, bookings, hotelId);
            && |r| == Min(5, |Distinct(BookerNames(users, bookings, hotelId))|)
            && (forall i, j :: 0 <= i < j < |r| ==> r[i].numBookings >= r[j].numBookings)
            && NoDuplicates(NamesOf(r))
  {
  }

  /** Each row carries its name's number of bookings at the hotel; no name left out has more
      bookings than a name listed; with at most five names, every name with a booking is listed. */
  lemma RegularCustomersCounts(users: seq<User>, bookings: seq<Booking>, hotelId: int)
    ensures var r := RegularCustomers(users, bookings, hotelId);
            && (forall i :: 0 <= i < |r| ==> r[i].numBookings == BookingsNamed(users, bookings, hotelId, r[i].name) > 0)
            && (forall i, n :: 0 <= i < |r| && BookingsNamed(users, bookings, hotelId, n) > 0 && n !in NamesOf(r)
                  ==> BookingsNamed(users, bookings, hotelId, n) <= r[i].numBookings)
            && (|Distinct(BookerNames(users, bookings, hotelId))| <= 5 ==>
                  forall n :: BookingsNamed(users, bookings, hotelId, n) > 0 ==> n in NamesOf(r))
  {
    var names := BookerNames(users, bookings, hotelId);
    var r := RegularCustomers(users, bookings, hotelId);
    assert r == TopGroups(names);
    TopGroupsComplete(names);
    forall i | 0 <= i < |r| ensures r[i].numBookings == BookingsNamed(users, bookings, hotelId, r[i].name) > 0 {
      GroupSizeIsBookingsNamed(users, bookings, hotelId, r[i].name);
    }
    forall i, n | 0 <= i < |r| && BookingsNamed(users, bookings, hotelId, n) > 0 && n !in NamesOf(r)
      ensures BookingsNamed(users, bookings, hotelId, n) <= r[i].numBookings
    {
      GroupSizeIsBookingsNamed(users, bookings, hotelId, n);
    }
    if |Distinct(names)| <= 5 {
      forall n | BookingsNamed(users, bookings, hotelId, n) > 0 ensures n in NamesOf(r) {
        GroupSizeIsBookingsNamed(users, bookings, hotelId, n);
      }
    }
  }

  /** What the regular-customers report promises about its rows `r`: one row per distinct
      booker name, at most five, no name twice, most bookings first, each with its number of
      bookings at the hotel, no name left out with more bookings than a name listed, and
      every name listed when there are at most five. */
  ghost predicate RanksRegularCustomers(users: seq<User>, bookings: seq<Booking>, hotelId: int, r: seq<CustomerCount>) {
    && |r| == Min(5, |Distinct(BookerNames(users, bookings, hotelId))|)
    && (forall i, j :: 0 <= i < j < |r| ==> r[i].numBookings >= r[j].numBookings)
    && NoDuplicates(NamesOf(r))
    && (forall i :: 0 <= i < |r| ==> r[i].numBookings == BookingsNamed(users, bookings, hotelId, r[i].name) > 0)
    && (forall i, n :: 0 <= i < |r| && BookingsNamed(users, bookings, hotelId, n) > 0 && n !in NamesOf(r)
          ==> BookingsNamed(users, bookings, hotelId, n) <= r[i].numBookings)
    && (|Distinct(BookerNames(users, bookings, hotelId))| <= 5 ==>
          forall n :: BookingsNamed(users, bookings, hotelId, n) > 0 ==> n in NamesOf(r))
  }

  /** The report keeps every promise of `RanksRegularCustomers`. */
  lemma RegularCustomersRanks(users: seq<User>, bookings: seq<Booking>, hotelId: int)
    ensures RanksRegularCustomers(users, bookings, hotelId, RegularCustomers(users, bookings, hotelId))
  {
    RegularCustomersRanked(users, bookings, hotelId);
    RegularCustomersCounts(users, bookings, hotelId);
  }

  function SharedNameUsers(): seq<User> {
    [User(1, "Ana", "p", "customer"), User(2, "Ana", "q", "customer")]
  }

  function SharedNameBookings(): seq<Booking> {
    [Booking(1, 1, 7, 101, Mdy(1, 1, 2024)), Booking(2, 2, 7, 102, Mdy(1, 2, 2024))]
  }

  lemma ExampleBookerNames()
    ensures BookerNames(SharedNameUsers(), SharedNameBookings(), 7) == ["Ana", "Ana"]
  {
    assert UserName(SharedNameUsers(), 1) == Some("Ana") && UserName(SharedNameUsers(), 2) == Some("Ana");
  }

  /** A column holding one name twice ranks as that one name with count two. */
  lemma TopGroupsOfOneName(n: string)
    ensures TopGroups([n, n]) == [CustomerCount(n, 2)]
  {
    var names := [n, n];
    assert Distinct(names) == [n] by {
      assert names[..1] == [n];
      assert Distinct(names[..1]) == [n];
    }
    var r := TopGroups(names);
    assert r[0].name == n && r[0].numBookings == multiset(names)[n] == 2;
  }

  /** Two customers with the same name appear as one regular customer whose count is the
      sum of their bookings. */
  lemma SameNameCountedTogether()
    ensures RegularCustomers(SharedNameUsers(), SharedNameBookings(), 7) == [CustomerCount("Ana", 2)]
  {
    ExampleBookerNames();
    TopGroupsOfOneName("Ana");
  }

  // ---- Booking history over a date range -------------------------------------------

  /** A row of the booking-history report. */
  datatype HistoryLine = HistoryLine(bookingId: int, name: string, hotelId: int, roomNumber: int, bookingDate: Date)

  predicate InRange(lower: Date, upper: Date, d: Date) {
    OnOrBefore(lower, d) && OnOrBefore(d, upper)
  }

  function HistoryRow(users: seq<User>, hotels: seq<Hotel>, lower: Date, upper: Date, b: Booking): Option<HistoryLine> {
    if InRange(lower, upper, b.bookingDate) && HotelExists(hotels, b.hotelId) then
      match UserName(users, b.customerId)
      case Some(n) => Some(HistoryLine(b.bookingId, n, b.hotelId, b.roomNumber, b.bookingDate))
      case None => None
    else None
  }

  /** A booking's history row, when it has one, shows that booking under its customer's name. */
  lemma HistoryRowShows(users: seq<User>, hotels: seq<Hotel>, lower: Date, upper: Date, b: Booking, l: HistoryLine)
    requires HistoryRow(users, hotels, lower, upper, b) == Some(l)
    ensures InRange(lower, upper, b.bookingDate) && HotelExists(hotels, b.hotelId)
    ensures UserName(users, b.customerId) == Some(l.name)
    ensures l == HistoryLine(b.bookingId, l.name, b.hotelId, b.roomNumber, b.bookingDate)
  {
  }

  function HistoryKey(l: HistoryLine): int {
    DateKey(l.bookingDate)
  }

  /** A booking shown by the report: dated within the inclusive range, with a hotel row and
      a customer row (in any hotel: the caller's ownership is not checked). */
  predicate ShownInHistory(users: seq<User>, hotels: seq<Hotel>, bookings: seq<Booking>, lower: Date, upper: Date,
                           l: HistoryLine) {
    exists b :: b in bookings && InRange(lower, upper, b.bookingDate) && HotelExists(hotels, b.hotelId)
                && UserName(users, b.customerId) == Some(l.name)
                && l == HistoryLine(b.bookingId, l.name, b.hotelId, b.roomNumber, b.bookingDate)
  }

  /** The rows of the three-table join, in booking order. */
  function HistoryLines(users: seq<User>, hotels: seq<Hotel>, bookings: seq<Booking>, lower: Date, upper: Date)
    : (r: seq<HistoryLine>)
    ensures forall l :: l in r <==> ShownInHistory(users, hotels, bookings, lower, upper, l)
    ensures |r| <= |bookings|
  {
    var f := (b: Booking) => HistoryRow(users, hotels, lower, upper, b);
    var r := MapFilter(bookings, f);
    assert forall l :: l in r ==> ShownInHistory(users, hotels, bookings, lower, upper, l) by {
      forall l | l in r ensures ShownInHistory(users, hotels, bookings, lower, upper, l) {
        var k :| 0 <= k < |r| && r[k] == l;
        var j :| 0 <= j < |bookings| && f(bookings[j]) == Some(l);
        HistoryRowShows(users, hotels, lower, upper, bookings[j], l);
        assert bookings[j] in bookings;
      }
    }
    assert forall l :: ShownInHistory(users, hotels, bookings, lower, upper, l) ==> l in r by {
      forall l | ShownInHistory(users, hotels, bookings, lower, upper, l) ensures l in r {
        var b :| b in bookings && InRange(lower, upper, b.bookingDate) && HotelExists(hotels, b.hotelId)
                 && UserName(users, b.customerId) == Some(l.name)
                 && l == HistoryLine(b.bookingId, l.name, b.hotelId, b.roomNumber, b.bookingDate);
        var j :| 0 <= j < |bookings| && bookings[j] == b;
        assert f(bookings[j]) == Some(l);
      }
    }
    r
  }

  /** The report: the join's rows ordered by booking date. */
  function BookingHistory(users: seq<User>, hotels: seq<Hotel>, bookings: seq<Booking>, lower: Date, upper: Date)
    : (r: seq<HistoryLine>)
    ensures forall i, j :: 0 <= i < j < |r| ==> OnOrBefore(r[i].bookingDate, r[j].bookingDate)
    ensures forall l :: l in r <==> ShownInHistory(users, hotels, bookings, lower, upper, l)
    ensures forall l :: multiset(r)[l] == BookingsShownAs(users, hotels, bookings, lower, upper, l)
    ensures |r| <= |bookings|
  {
    var lines := HistoryLines(users, hotels, bookings, lower, upper);
    HistoryByDate(lines);
    forall l ensures multiset(lines)[l] == BookingsShownAs(users, hotels, bookings, lower, upper, l) {
      HistoryRowsCounted(users, hotels, bookings, lower, upper, l);
    }
    SortBy(lines, HistoryKey)
  }

  /** The number of bookings whose history row is `l`. */
  function BookingsShownAs(users: seq<User>, hotels: seq<Hotel>, bookings: seq<Booking>, lower: Date, upper: Date,
                           l: HistoryLine): nat
    decreases |bookings|
  {
    if bookings == [] then 0
    else (if HistoryRow(users, hotels, lower, upper, bookings[0]) == Some(l) then 1 else 0)
         + BookingsShownAs(users, hotels, bookings[1..], lower, upper, l)
  }

  /** The join yields one row per booking that has one: a row occurs as often as bookings show it. */
  lemma {:induction false} HistoryRowsCounted(users: seq<User>, hotels: seq<Hotel>, bookings: seq<Booking>,
                                              lower: Date, upper: Date, l: HistoryLine)
    ensures multiset(HistoryLines(users, hotels, bookings, lower, upper))[l] == BookingsShownAs(users, hotels, bookings, lower, upper, l)
    decreases |bookings|
  {
    if bookings != [] {
      HistoryRowsCounted(users, hotels, bookings[1..], lower, upper, l);
    }
  }

  /** Sorting the join's rows by their key orders them by date and keeps exactly the same rows. */
  lemma HistoryByDate(lines: seq<HistoryLine>)
    ensures forall i, j :: 0 <= i < j < |SortBy(lines, HistoryKey)| ==>
              OnOrBefore(SortBy(lines, HistoryKey)[i].bookingDate, SortBy(lines, HistoryKey)[j].bookingDate)
    ensures forall l :: l in SortBy(lines, HistoryKey) <==> l in lines
    ensures |SortBy(lines, HistoryKey)| == |lines|
  {
    var r := SortBy(lines, HistoryKey);
    forall i, j | 0 <= i < j < |r| ensures OnOrBefore(r[i].bookingDate, r[j].bookingDate) {
      DateKeyOrder(r[i].bookingDate, r[j].bookingDate);
    }
    forall l ensures l in r <==> l in lines {
      assert l in r <==> l in multiset(r);
      assert l in lines <==> l in multiset(lines);
    }
  }

  // ---- A manager's repair requests -------------------------------------------------

  /** A row of the repair-history report. */
  datatype RepairLine = RepairLine(companyId: int, hotelId: int, roomNumber: int, repairDate: Date)

  function LineOfRepair(a: Repair): RepairLine {
    RepairLine(a.companyId, a.hotelId, a.roomNumber, a.repairDate)
  }

  function RepairWithId(repairId: int, a: Repair): Option<RepairLine> {
    if a.repairId == repairId then Some(LineOfRepair(a)) else None
  }

  /** `l` shows a repair with this id. */
  predicate ShowsRepair(repairs: seq<Repair>, repairId: int, l: RepairLine) {
    exists j :: 0 <= j < |repairs| && repairs[j].repairId == repairId && l == LineOfRepair(repairs[j])
  }

  /** The number of repairs with this id that `l` shows. */
  function RepairsShownAs(repairs: seq<Repair>, repairId: int, l: RepairLine): nat
    decreases |repairs|
  {
    if repairs == [] then 0
    else (if RepairWithId(repairId, repairs[0]) == Some(l) then 1 else 0) + RepairsShownAs(repairs[1..], repairId, l)
  }

  /** Selecting the repairs with one id yields one line per such repair. */
  lemma {:induction false} RepairsNamedCounted(repairs: seq<Repair>, repairId: int, l: RepairLine)
    ensures multiset(MapFilter(repairs, (a: Repair) => RepairWithId(repairId, a)))[l] == RepairsShownAs(repairs, repairId, l)
    decreases |repairs|
  {
    if repairs != [] {
      RepairsNamedCounted(repairs[1..], repairId, l);
    }
  }

  /** The number of (request, repair) pairs of the join that show `l`: for each of the
      caller's requests, the repairs with the id it names. */
  function PairsShownAs(repairs: seq<Repair>, requests: seq<RepairRequest>, managerId: int, l: RepairLine): nat
    decreases |requests|
  {
    if requests == [] then 0
    else (if requests[0].managerId == managerId then RepairsShownAs(repairs, requests[0].repairId, l) else 0)
         + PairsShownAs(repairs, requests[1..], managerId, l)
  }

  /** The repairs one request names, in table order. */
  function RepairsNamed(repairs: seq<Repair>, repairId: int): (h: seq<RepairLine>)
    ensures forall l :: l in h <==> ShowsRepair(repairs, repairId, l)
    ensures forall l :: multiset(h)[l] == RepairsShownAs(repairs, repairId, l)
  {
    var f := (a: Repair) => RepairWithId(repairId, a);
    var h := MapFilter(repairs, f);
    forall l ensures multiset(h)[l] == RepairsShownAs(repairs, repairId, l) {
      RepairsNamedCounted(repairs, repairId, l);
    }
    assert forall l :: l in h ==> ShowsRepair(repairs, repairId, l) by {
      forall l | l in h ensures ShowsRepair(repairs, repairId, l) {
        var k :| 0 <= k < |h| && h[k] == l;
        var j :| 0 <= j < |repairs| && f(repairs[j]) == Some(l);
      }
    }
    assert forall l :: ShowsRepair(repairs, repairId, l) ==> l in h by {
      forall l | ShowsRepair(repairs, repairId, l) ensures l in h {
        var j :| 0 <= j < |repairs| && repairs[j].repairId == repairId && l == LineOfRepair(repairs[j]);
        assert f(repairs[j]) == Some(l);
      }
    }
    h
  }

  /** The join of the caller's requests with the repairs they name (`a.repairID = b.repairID`):
      one row per matching (request, repair) pair, request by request. */
  function RepairHistory(repairs: seq<Repair>, requests: seq<RepairRequest>, managerId: int): (r: seq<RepairLine>)
    ensures forall l: RepairLine :: l in r <==>
              exists i, j :: 0 <= i < |requests| && 0 <= j < |repairs| && requests[i].managerId == managerId
                             && repairs[j].repairId == requests[i].repairId && l == LineOfRepair(repairs[j])
    ensures forall l :: multiset(r)[l] == PairsShownAs(repairs, requests, managerId, l)
    decreases |requests|
  {
    if requests == [] then []
    else
      var here := if requests[0].managerId == managerId then RepairsNamed(repairs, requests[0].repairId) else [];
      var rest := RepairHistory(repairs, requests[1..], managerId);
      JoinFirstRequest(repairs, requests, managerId, here, rest);
      JoinFirstRequestCounts(repairs, requests, managerId, here, rest);
      here + rest
  }

  /** Each row of the join occurs once per (request, repair) pair that shows it. */
  lemma JoinFirstRequestCounts(repairs: seq<Repair>, requests: seq<RepairRequest>, managerId: int,
                               here: seq<RepairLine>, rest: seq<RepairLine>)
    requires requests != []
    requires forall l :: multiset(here)[l] == if requests[0].managerId == managerId then RepairsShownAs(repairs, requests[0].repairId, l) else 0
    requires forall l :: multiset(rest)[l] == PairsShownAs(repairs, requests[1..], managerId, l)
    ensures forall l :: multiset(here + rest)[l] == PairsShownAs(repairs, requests, managerId, l)
  {
    assert multiset(here + rest) == multiset(here) + multiset(rest);
  }

  /** The join over all requests is the first request's repairs followed by the join over the rest. */
  lemma JoinFirstRequest(repairs: seq<Repair>, requests: seq<RepairRequest>, managerId: int,
                         here: seq<RepairLine>, rest: seq<RepairLine>)
    requires requests != []
    requires forall l :: l in here <==> requests[0].managerId == managerId && ShowsRepair(repairs, requests[0].repairId, l)
    requires forall l: RepairLine :: l in rest <==>
               exists i, j :: 0 <= i < |requests[1..]| && 0 <= j < |repairs| && requests[1..][i].managerId == managerId
                              && repairs[j].repairId == requests[1..][i].repairId && l == LineOfRepair(repairs[j])
    ensures forall l: RepairLine :: l in here + rest <==>
              exists i, j :: 0 <= i < |requests| && 0 <= j < |repairs| && requests[i].managerId == managerId
                             && repairs[j].repairId == requests[i].repairId && l == LineOfRepair(repairs[j])
  {
    assert forall i :: 1 <= i < |requests| ==> requests[i] == requests[1..][i - 1];
    forall l: RepairLine | l in here + rest
      ensures exists i, j :: 0 <= i < |requests| && 0 <= j < |repairs| && requests[i].managerId == managerId
                             && repairs[j].repairId == requests[i].repairId && l == LineOfRepair(repairs[j])
    {
      if l in here {
        var j :| 0 <= j < |repairs| && repairs[j].repairId == requests[0].repairId && l == LineOfRepair(repairs[j]);
      } else {
        var i, j :| 0 <= i < |requests[1..]| && 0 <= j < |repairs| && requests[1..][i].managerId == managerId
                    && repairs[j].repairId == requests[1..][i].repairId && l == LineOfRepair(repairs[j]);
        assert requests[i + 1] == requests[1..][i];
      }
    }
    forall l: RepairLine | (exists i, j :: 0 <= i < |requests| && 0 <= j < |repairs| && requests[i].managerId == managerId
                                          && repairs[j].repairId == requests[i].repairId && l == LineOfRepair(repairs[j]))
      ensures l in here + rest
    {
      var i, j :| 0 <= i < |requests| && 0 <= j < |repairs| && requests[i].managerId == managerId
                  && repairs[j].repairId == requests[i].repairId && l == LineOfRepair(repairs[j]);
      if i > 0 {
        assert requests[1..][i - 1] == requests[i];
      } else {
        assert ShowsRepair(repairs, requests[0].repairId, l);
      }
    }
  }
}
