/** The hotel database as the menu workflows see it: its seven tables, the id sequences
    of the tables whose ids the database issues, and one method or function per workflow.
    A workflow's operator entries are parameters, in the order they are typed. */
module Store {
  import opened Seqs
  import opened Dates
  import opened Ordering
  import opened Schema
  import opened Prompts
  import opened Reservations
  import opened Reports
  import opened Maintenance

  class HotelDb {
    var users: seq<User>
    var hotels: seq<Hotel>
    var rooms: seq<Room>
    var bookings: seq<Booking>
    var updatesLog: seq<RoomUpdate>
    var repairs: seq<Repair>
    var repairRequests: seq<RepairRequest>

    /** The last value each serial id sequence has issued. */
    var lastUserId: int
    var lastBookingId: int
    var lastUpdateNumber: int
    var lastRepairId: int
    var lastRequestId: int

    /** Every stored user id was issued by the user id sequence, so the next one is fresh. */
    predicate UserIdsIssued()
      reads this
    {
      forall i :: 0 <= i < |users| ==> users[i].userId <= lastUserId
    }

    /** The repairs table holds ids 1, 2, ... with none removed. */
    predicate RepairsDense()
      reads this
    {
      DenseRepairIds(repairs, lastRepairId)
    }

    constructor (users: seq<User>, hotels: seq<Hotel>, rooms: seq<Room>, bookings: seq<Booking>,
                 updatesLog: seq<RoomUpdate>, repairs: seq<Repair>, repairRequests: seq<RepairRequest>,
                 lastUserId: int, lastBookingId: int, lastUpdateNumber: int, lastRepairId: int, lastRequestId: int)
      ensures this.users == users && this.hotels == hotels && this.rooms == rooms && this.bookings == bookings
      ensures this.updatesLog == updatesLog && this.repairs == repairs && this.repairRequests == repairRequests
      ensures this.lastUserId == lastUserId && this.lastBookingId == lastBookingId
      ensures this.lastUpdateNumber == lastUpdateNumber && this.lastRepairId == lastRepairId
      ensures this.lastRequestId == lastRequestId
    {
      this.users, this.hotels, this.rooms, this.bookings := users, hotels, rooms, bookings;
      this.updatesLog, this.repairs, this.repairRequests := updatesLog, repairs, repairRequests;
      this.lastUserId, this.lastBookingId, this.lastUpdateNumber := lastUserId, lastBookingId, lastUpdateNumber;
      this.lastRepairId, this.lastRequestId := lastRepairId, lastRequestId;
    }

    // ---- Prompts that consult the tables -------------------------------------------

    /** The `Enter hotelID` loop: re-prompts until the caller manages the hotel entered. */
    method PromptManagedHotel(userId: int, entries: seq<int>) returns (h: Option<int>)
      ensures h == ManagedChoice(hotels, userId, entries)
      ensures h.Some? ==> Manages(hotels, userId, h.value)
    {
      var hs := hotels;
      var k := AcceptFirst(entries, (x: int) => Manages(hs, userId, x));
      h := if k < |entries| then Some(entries[k]) else None;
    }

    /** The `Enter room number` loop: re-prompts until the hotel has a room with the number entered. */
    method PromptRoom(hotelId: int, entries: seq<int>) returns (n: Option<int>)
      ensures n == RoomChoice(rooms, hotelId, entries)
      ensures n.Some? ==> RoomExists(rooms, hotelId, n.value)
    {
      var rs := rooms;
      var k := AcceptFirst(entries, (x: int) => RoomExists(rs, hotelId, x));
      n := if k < |entries| then Some(entries[k]) else None;
    }

    // ---- Customer workflows --------------------------------------------------------

    /** Registration: a Customer row with the next user id; a customer cannot pass the role
        check and can log in with the password just given. */
    method CreateUser(name: string, password: string)
      modifies this`users, this`lastUserId
      ensures lastUserId == old(lastUserId) + 1
      ensures users == old(users) + [User(lastUserId, name, password, "Customer")]
      ensures old(UserIdsIssued()) ==> UserIdsIssued() && !Privileged(users, lastUserId)
      ensures LogIn(users, lastUserId, password) == Some(lastUserId)
    {
      var u := User(lastUserId + 1, name, password, "Customer");
      if UserIdsIssued() {
        assert forall v :: v in users ==> v.userId != u.userId;
        RegisteredCustomerNotPrivileged(users, u);
      }
      RegisteredUserCanLogIn(users, u);
      users := users + [u];
      lastUserId := lastUserId + 1;
    }

    /** The room listing for a hotel on the first valid date entered. */
    method ViewRooms(hotelId: int, dateLines: seq<string>) returns (res: Result<seq<RoomOffer>>)
      ensures DateEntry(dateLines).None? ==> res == Err(InputExhausted)
      ensures DateEntry(dateLines).Some? ==> res == Ok(AvailableRooms(rooms, bookings, hotelId, DateEntry(dateLines).value))
      ensures res.Ok? && HotelExists(hotels, hotelId) ==>
                forall o :: o in res.value ==>
                  BookingAllowed(hotels, rooms, bookings, hotelId, o.roomNumber, DateEntry(dateLines).value)
    {
      var d, _ := ReadDate(dateLines);
      if d.None? {
        return Err(InputExhausted);
      }
      var listing := AvailableRooms(rooms, bookings, hotelId, d.value);
      if HotelExists(hotels, hotelId) {
        forall o | o in listing
          ensures BookingAllowed(hotels, rooms, bookings, hotelId, o.roomNumber, d.value)
        {
          ListedIffBookable(hotels, rooms, bookings, hotelId, o.roomNumber, d.value);
        }
      }
      res := Ok(listing);
    }

    /** Booking: reads the first valid date, runs the availability check, and on a row
        stores the booking with the next booking id. No room number is ever held twice on a date. */
    method BookRoom(customerId: int, hotelId: int, roomNumber: int, dateLines: seq<string>) returns (res: Result<Booking>)
      modifies this`bookings, this`lastBookingId
      ensures DateEntry(dateLines).None? ==> res == Err(InputExhausted)
      ensures DateEntry(dateLines).Some? && !BookingAllowed(hotels, rooms, old(bookings), hotelId, roomNumber, DateEntry(dateLines).value)
              ==> res == Err(RoomUnavailable)
      ensures res.Ok? <==> DateEntry(dateLines).Some?
                           && BookingAllowed(hotels, rooms, old(bookings), hotelId, roomNumber, DateEntry(dateLines).value)
      ensures res.Ok? ==> res.value == Booking(old(lastBookingId) + 1, customerId, hotelId, roomNumber, DateEntry(dateLines).value)
                          && bookings == old(bookings) + [res.value] && lastBookingId == old(lastBookingId) + 1
      ensures res.Err? ==> bookings == old(bookings) && lastBookingId == old(lastBookingId)
      ensures NoDoubleBooking(old(bookings)) ==> NoDoubleBooking(bookings)
    {
      var d, _ := ReadDate(dateLines);
      if d.None? {
        return Err(InputExhausted);
      }
      if !BookingAllowed(hotels, rooms, bookings, hotelId, roomNumber, d.value) {
        return Err(RoomUnavailable);
      }
      var b := Booking(lastBookingId + 1, customerId, hotelId, roomNumber, d.value);
      if NoDoubleBooking(bookings) {
        AllowedBookingKeepsNoDoubleBooking(hotels, rooms, bookings, b);
      }
      bookings := bookings + [b];
      lastBookingId := lastBookingId + 1;
      res := Ok(b);
    }

    /** The customer's booking report: the five earliest of the customer's priced bookings
        (all of them when there are no more than five), earliest first. */
    function ViewRecentBookings(customerId: int): (r: seq<BookingLine>)
      reads this
      ensures |r| == Min(5, |CustomerLines(bookings, rooms, customerId)|)
      ensures forall l :: l in r ==> l in CustomerLines(bookings, rooms, customerId)
      ensures forall i, j :: 0 <= i < j < |r| ==> OnOrBefore(r[i].bookingDate, r[j].bookingDate)
      ensures multiset(r) <= multiset(CustomerLines(bookings, rooms, customerId))
      ensures forall x, y :: x in r && y in multiset(CustomerLines(bookings, rooms, customerId)) - multiset(r)
                ==> OnOrBefore(x.bookingDate, y.bookingDate)
      ensures |CustomerLines(bookings, rooms, customerId)| <= 5 ==>
                forall l :: multiset(r)[l] == BookingsBilledAs(bookings, rooms, customerId, l)
    {
      var lines := CustomerLines(bookings, rooms, customerId);
      var r := RecentBookings(bookings, rooms, customerId);
      assert forall l :: l in r ==> l in lines by {
        forall l | l in r ensures l in lines {
          assert l in multiset(r);
        }
      }
      r
    }

    // ---- Manager workflows ---------------------------------------------------------

    /** The room update: after the role check and the two prompts, every room with the
        chosen number (in every hotel) gets the new price and image, and one log row records
        the change for the chosen hotel at the clock reading `now`. */
    method UpdateRoomInfo(userId: int, hotelEntries: seq<int>, roomEntries: seq<int>,
                          price: int, imageUrl: string, now: int) returns (res: Result<RoomUpdate>)
      modifies this`rooms, this`updatesLog, this`lastUpdateNumber
      ensures !Privileged(users, userId) ==> res == Err(PermissionDenied)
      ensures Privileged(users, userId) && ManagedChoice(hotels, userId, hotelEntries).None? ==> res == Err(InputExhausted)
      ensures Privileged(users, userId) && ManagedChoice(hotels, userId, hotelEntries).Some?
              && RoomChoice(old(rooms), ManagedChoice(hotels, userId, hotelEntries).value, roomEntries).None?
              ==> res == Err(InputExhausted)
      ensures res.Ok? <==> Privileged(users, userId) && ManagedChoice(hotels, userId, hotelEntries).Some?
                           && RoomChoice(old(rooms), ManagedChoice(hotels, userId, hotelEntries).value, roomEntries).Some?
      ensures res.Ok? ==>
                var h := ManagedChoice(hotels, userId, hotelEntries).value;
                var n := RoomChoice(old(rooms), h, roomEntries).value;
                Manages(hotels, userId, h) && RoomExists(old(rooms), h, n)
                && res.value == RoomUpdate(old(lastUpdateNumber) + 1, userId, h, n, now)
                && rooms == SetPriceAndImage(old(rooms), n, price, imageUrl)
                && updatesLog == old(updatesLog) + [res.value] && lastUpdateNumber == old(lastUpdateNumber) + 1
      ensures res.Err? ==> rooms == old(rooms) && updatesLog == old(updatesLog) && lastUpdateNumber == old(lastUpdateNumber)
    {
      if !Privileged(users, userId) {
        return Err(PermissionDenied);
      }
      var h := PromptManagedHotel(userId, hotelEntries);
      if h.None? {
        return Err(InputExhausted);
      }
      var n := PromptRoom(h.value, roomEntries);
      if n.None? {
        return Err(InputExhausted);
      }
      rooms := SetPriceAndImage(rooms, n.value, price, imageUrl);
      var u := RoomUpdate(lastUpdateNumber + 1, userId, h.value, n.value, now);
      updatesLog := updatesLog + [u];
      lastUpdateNumber := lastUpdateNumber + 1;
      res := Ok(u);
    }

    /** The recent-updates report, behind the role check: up to five of the caller's
        latest log rows, oldest first. */
    function ViewRecentUpdates(userId: int): (r: Result<seq<RoomUpdate>>)
      reads this
      ensures r.Err? <==> !Privileged(users, userId)
      ensures r.Err? ==> r.failure == PermissionDenied
      ensures r.Ok? ==> |r.value| == Min(5, |ManagerUpdates(updatesLog, userId)|)
      ensures r.Ok? ==> forall u :: u in r.value ==> u in updatesLog && u.managerId == userId
      ensures r.Ok? ==> forall i, j :: 0 <= i < j < |r.value| ==> r.value[i].updatedOn <= r.value[j].updatedOn
      ensures r.Ok? ==> multiset(r.value) <= multiset(ManagerUpdates(updatesLog, userId))
      ensures r.Ok? ==> forall x, y :: x in r.value && y in multiset(ManagerUpdates(updatesLog, userId)) - multiset(r.value)
                          ==> y.updatedOn <= x.updatedOn
    {
      if !Privileged(users, userId) then Err(PermissionDenied)
      else Ok(RecentUpdates(updatesLog, userId))
    }

    /** The booking-history report, behind the role check only: two date prompts read from
        the same lines, then every booking in the inclusive range, in any hotel. */
    method ViewBookingHistory(userId: int, dateLines: seq<string>) returns (res: Result<seq<HistoryLine>>)
      ensures !Privileged(users, userId) ==> res == Err(PermissionDenied)
      ensures res.Ok? <==> Privileged(users, userId) && DateEntry(dateLines).Some?
                           && DateEntry(AfterDateEntry(dateLines)).Some?
      ensures res.Ok? ==> res.value == BookingHistory(users, hotels, bookings, DateEntry(dateLines).value,
                                                      DateEntry(AfterDateEntry(dateLines)).value)
      ensures res.Err? && Privileged(users, userId) ==> res == Err(InputExhausted)
    {
      if !Privileged(users, userId) {
        return Err(PermissionDenied);
      }
      var lower, rest := ReadDate(dateLines);
      if lower.None? {
        return Err(InputExhausted);
      }
      var upper, _ := ReadDate(rest);
      if upper.None? {
        return Err(InputExhausted);
      }
      res := Ok(BookingHistory(users, hotels, bookings, lower.value, upper.value));
    }

    /** The regular-customers report, behind the role check and the ownership check of the
        one hotel id entered: the five names with the most bookings at that hotel. */
    function ViewRegularCustomers(userId: int, hotelId: int): (r: Result<seq<CustomerCount>>)
      reads this
      ensures !Privileged(users, userId) ==> r == Err(PermissionDenied)
      ensures Privileged(users, userId) && !Manages(hotels, userId, hotelId) ==> r == Err(NotYourHotel)
      ensures r.Ok? <==> Privileged(users, userId) && Manages(hotels, userId, hotelId)
      ensures r.Ok? ==> RanksRegularCustomers(users, bookings, hotelId, r.value)
    {
      if !Privileged(users, userId) then Err(PermissionDenied)
      else if !Manages(hotels, userId, hotelId) then Err(NotYourHotel)
      else
        RegularCustomersRanks(users, bookings, hotelId);
        Ok(RegularCustomers(users, bookings, hotelId))
    }

    /** The repair request: after the role check and the two prompts, a repair dated
        `today` with the next repair id, then a request with the next request id that names
        the repair whose id equals the number of repair rows. With dense repair ids that is
        the repair just filed, and the caller's repair history shows it. */
    method PlaceRoomRepairRequest(userId: int, hotelEntries: seq<int>, roomEntries: seq<int>,
                                  companyId: int, today: Date) returns (res: Result<RepairRequest>)
      modifies this`repairs, this`repairRequests, this`lastRepairId, this`lastRequestId
      ensures !Privileged(users, userId) ==> res == Err(PermissionDenied)
      ensures Privileged(users, userId) && ManagedChoice(hotels, userId, hotelEntries).None? ==> res == Err(InputExhausted)
      ensures Privileged(users, userId) && ManagedChoice(hotels, userId, hotelEntries).Some?
              && RoomChoice(rooms, ManagedChoice(hotels, userId, hotelEntries).value, roomEntries).None?
              ==> res == Err(InputExhausted)
      ensures res.Ok? <==> Privileged(users, userId) && ManagedChoice(hotels, userId, hotelEntries).Some?
                           && RoomChoice(rooms, ManagedChoice(hotels, userId, hotelEntries).value, roomEntries).Some?
      ensures res.Ok? ==>
                var h := ManagedChoice(hotels, userId, hotelEntries).value;
                var n := RoomChoice(rooms, h, roomEntries).value;
                repairs == old(repairs) + [Repair(old(lastRepairId) + 1, companyId, h, n, today)]
                && lastRepairId == old(lastRepairId) + 1
                && res.value == RepairRequest(old(lastRequestId) + 1, userId, |repairs|)
                && repairRequests == old(repairRequests) + [res.value] && lastRequestId == old(lastRequestId) + 1
      ensures res.Ok? && old(RepairsDense()) ==>
                RepairsDense() && LineOfRepair(repairs[|repairs| - 1]) in RepairHistory(repairs, repairRequests, userId)
      ensures res.Err? ==> repairs == old(repairs) && repairRequests == old(repairRequests)
                           && lastRepairId == old(lastRepairId) && lastRequestId == old(lastRequestId)
    {
      if !Privileged(users, userId) {
        return Err(PermissionDenied);
      }
      var h := PromptManagedHotel(userId, hotelEntries);
      if h.None? {
        return Err(InputExhausted);
      }
      var n := PromptRoom(h.value, roomEntries);
      if n.None? {
        return Err(InputExhausted);
      }
      var q := FileRepairRequest(userId, h.value, n.value, companyId, today);
      res := Ok(q);
    }

    /** The two inserts of a repair request: the repair, then the request naming the
        repair whose id is the count of repair rows. */
    method FileRepairRequest(userId: int, hotelId: int, roomNumber: int, companyId: int, today: Date)
      returns (q: RepairRequest)
      modifies this`repairs, this`repairRequests, this`lastRepairId, this`lastRequestId
      ensures repairs == old(repairs) + [Repair(old(lastRepairId) + 1, companyId, hotelId, roomNumber, today)]
      ensures lastRepairId == old(lastRepairId) + 1
      ensures q == RepairRequest(old(lastRequestId) + 1, userId, |repairs|)
      ensures repairRequests == old(repairRequests) + [q] && lastRequestId == old(lastRequestId) + 1
      ensures old(RepairsDense()) ==>
                RepairsDense() && LineOfRepair(repairs[|repairs| - 1]) in RepairHistory(repairs, repairRequests, userId)
    {
      var rp := Repair(lastRepairId + 1, companyId, hotelId, roomNumber, today);
      q := RepairRequest(lastRequestId + 1, userId, |repairs| + 1);
      if RepairsDense() {
        FilingKeepsDense(repairs, lastRepairId, rp);
        RequestShowsNewRepair(repairs, lastRepairId, rp, repairRequests, q);
      }
      repairs := repairs + [rp];
      lastRepairId := lastRepairId + 1;
      repairRequests := repairRequests + [q];
      lastRequestId := lastRequestId + 1;
      assert repairs[|repairs| - 1] == rp;
    }

    /** The repair-history report, behind the role check: the repairs the caller's requests name. */
    function ViewRoomRepairHistory(userId: int): (r: Result<seq<RepairLine>>)
      reads this
      ensures r.Err? <==> !Privileged(users, userId)
      ensures r.Err? ==> r.failure == PermissionDenied
      ensures r.Ok? ==> forall l: RepairLine :: l in r.value <==>
                exists i, j :: 0 <= i < |repairRequests| && 0 <= j < |repairs| && repairRequests[i].managerId == userId
                               && repairs[j].repairId == repairRequests[i].repairId && l == LineOfRepair(repairs[j])
      ensures r.Ok? ==> forall l :: multiset(r.value)[l] == PairsShownAs(repairs, repairRequests, userId, l)
    {
      if !Privileged(users, userId) then Err(PermissionDenied)
      else Ok(RepairHistory(repairs, repairRequests, userId))
    }
  }

  /** The customer lines after one more booking: the old ones, then the new booking's line
      when its room has a price. */
  lemma CustomerLinesAfterBooking(bookings: seq<Booking>, rooms: seq<Room>, b: Booking)
    ensures CustomerLines(bookings + [b], rooms, b.customerId)
            == CustomerLines(bookings, rooms, b.customerId)
               + (if CustomerLine(rooms, b.customerId, b).Some? then [CustomerLine(rooms, b.customerId, b).value] else [])
  {
    MapFilterAppend(bookings, b, (x: Booking) => CustomerLine(rooms, b.customerId, x));
  }

  /** A booking the check accepts, made while the customer has fewer than five priced
      bookings, appears in the customer's booking report. */
  lemma BookingShownWhileFewerThanFive(hotels: seq<Hotel>, rooms: seq<Room>, bookings: seq<Booking>, b: Booking)
    requires BookingAllowed(hotels, rooms, bookings, b.hotelId, b.roomNumber, b.bookingDate)
    requires |CustomerLines(bookings, rooms, b.customerId)| < 5
    ensures exists l :: l in RecentBookings(bookings + [b], rooms, b.customerId)
                        && l.hotelId == b.hotelId && l.roomNumber == b.roomNumber && l.bookingDate == b.bookingDate
  {
    AllowedBookingPriced(hotels, rooms, bookings, b);
    var l := CustomerLine(rooms, b.customerId, b).value;
    RecentBookingsAfterBooking(bookings, rooms, b);
    ShortReportKeepsLine(CustomerLines(bookings, rooms, b.customerId), l);
    assert l in RecentBookings(bookings + [b], rooms, b.customerId);
  }

  /** A booking the check accepts is of a room that exists, so it has a line with that
      room's price. */
  lemma AllowedBookingPriced(hotels: seq<Hotel>, rooms: seq<Room>, bookings: seq<Booking>, b: Booking)
    requires BookingAllowed(hotels, rooms, bookings, b.hotelId, b.roomNumber, b.bookingDate)
    ensures CustomerLine(rooms, b.customerId, b).Some?
    ensures CustomerLine(rooms, b.customerId, b).value.hotelId == b.hotelId
    ensures CustomerLine(rooms, b.customerId, b).value.roomNumber == b.roomNumber
    ensures CustomerLine(rooms, b.customerId, b).value.bookingDate == b.bookingDate
  {
    BookingAllowedExactly(hotels, rooms, bookings, b.hotelId, b.roomNumber, b.bookingDate);
  }

  /** Fewer than five lines plus one more are all kept by `EarliestFive`. */
  lemma ShortReportKeepsLine(earlier: seq<BookingLine>, l: BookingLine)
    requires |earlier| < 5
    ensures l in EarliestFive(earlier + [l])
  {
    var lines := earlier + [l];
    assert l in multiset(lines);
    assert multiset(EarliestFive(lines)) == multiset(lines);
  }

  /** The customer's report after one more booking ranks the old lines plus the new
      booking's line, when its room has a price. */
  lemma RecentBookingsAfterBooking(bookings: seq<Booking>, rooms: seq<Room>, b: Booking)
    ensures CustomerLine(rooms, b.customerId, b).Some? ==>
              RecentBookings(bookings + [b], rooms, b.customerId)
              == EarliestFive(CustomerLines(bookings, rooms, b.customerId) + [CustomerLine(rooms, b.customerId, b).value])
    ensures CustomerLine(rooms, b.customerId, b).None? ==>
              RecentBookings(bookings + [b], rooms, b.customerId) == EarliestFive(CustomerLines(bookings, rooms, b.customerId))
  {
    var lines := CustomerLines(bookings + [b], rooms, b.customerId);
    var earlier := CustomerLines(bookings, rooms, b.customerId);
    assert RecentBookings(bookings + [b], rooms, b.customerId) == EarliestFive(lines);
    CustomerLinesAfterBooking(bookings, rooms, b);
    if CustomerLine(rooms, b.customerId, b).None? {
      assert earlier + [] == earlier;
      assert lines == earlier;
    }
  }

  /** The report keeps the five earliest bookings: once the customer has five priced
      bookings all earlier than a new booking's date, the report shows no line on that date,
      although the booking was made. */
  lemma LaterBookingNotShown(rooms: seq<Room>, bookings: seq<Booking>, b: Booking)
    requires |CustomerLines(bookings, rooms, b.customerId)| >= 5
    requires forall l :: l in CustomerLines(bookings, rooms, b.customerId) ==> !OnOrBefore(b.bookingDate, l.bookingDate)
    ensures forall l :: l in RecentBookings(bookings + [b], rooms, b.customerId) ==> l.bookingDate != b.bookingDate
  {
    RecentBookingsAfterBooking(bookings, rooms, b);
    var earlier := CustomerLines(bookings, rooms, b.customerId);
    if CustomerLine(rooms, b.customerId, b).Some? {
      LaterLineLeftOut(earlier, CustomerLine(rooms, b.customerId, b).value);
    } else {
      EarlierLinesKeepDates(earlier, b.bookingDate);
    }
  }

  /** `EarliestFive` of lines all earlier than a date shows no line on that date. */
  lemma EarlierLinesKeepDates(earlier: seq<BookingLine>, d: Date)
    requires forall e :: e in earlier ==> !OnOrBefore(d, e.bookingDate)
    ensures forall x :: x in EarliestFive(earlier) ==> x.bookingDate != d
  {
    var r := EarliestFive(earlier);
    forall x | x in r ensures x.bookingDate != d {
      assert x in multiset(r);
      assert x in multiset(earlier);
    }
  }

  /** Five lines all earlier than a later line push it out of `EarliestFive`. */
  lemma LaterLineLeftOut(earlier: seq<BookingLine>, l: BookingLine)
    requires |earlier| >= 5
    requires forall e :: e in earlier ==> !OnOrBefore(l.bookingDate, e.bookingDate)
    ensures forall x :: x in EarliestFive(earlier + [l]) ==> x.bookingDate != l.bookingDate
  {
    var lines := earlier + [l];
    var r := EarliestFive(lines);
    assert multiset(lines) == multiset(earlier) + multiset{l};
    var y := LeftOutElement(lines, r);
    assert y in lines;
    forall x | x in r ensures x.bookingDate != l.bookingDate {
      assert x in multiset(r);
      assert multiset(r) <= multiset(lines);
      assert OnOrBefore(x.bookingDate, y.bookingDate);
      if y == l {
        // `l` occurs once in `lines` and is left out, so `x` is an earlier line
        assert multiset(r)[l] == 0;
        assert x in multiset(lines);
        assert x in earlier;
      } else {
        // `x` is no later than an earlier line
        assert y in earlier;
      }
    }
  }

  /** A proper sub-multiset of a sequence leaves out some element of it. */
  lemma LeftOutElement<T>(s: seq<T>, r: seq<T>) returns (y: T)
    requires multiset(r) <= multiset(s) && |r| < |s|
    ensures y in multiset(s) - multiset(r)
  {
    assert multiset(r) != multiset(s) by {
      assert |multiset(r)| == |r| && |multiset(s)| == |s|;
    }
    y :| multiset(r)[y] != multiset(s)[y];
  }
}
