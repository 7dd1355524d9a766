/** Room availability as the booking and room-listing queries decide it. Both queries look
    for a conflicting booking by room number and date only, so a booking of room 101 in
    one hotel makes room 101 unavailable on that date in every hotel. */
module Reservations {
  import opened Seqs
  import opened Dates
  import opened Schema

  /** Some booking, in any hotel, holds this room number on this date (the NOT EXISTS subquery). */
  predicate RoomNumberTaken(bookings: seq<Booking>, roomNumber: int, date: Date) {
    exists b :: b in bookings && b.roomNumber == roomNumber && b.bookingDate == date
  }

  /** The number of rows the booking check returns: one per pair of a hotel row with the
      requested id and a room row of that hotel with the requested number, or none at all
      when the room number is taken on that date. */
  function BookingCheckRows(hotels: seq<Hotel>, rooms: seq<Room>, bookings: seq<Booking>,
                            hotelId: int, roomNumber: int, date: Date): nat {
    if RoomNumberTaken(bookings, roomNumber, date) then 0
    else Count(hotels, (h: Hotel) => h.hotelId == hotelId)
         * Count(rooms, (r: Room) => r.hotelId == hotelId && r.roomNumber == roomNumber)
  }

  /** The booking goes ahead when the check returns at least one row. */
  predicate BookingAllowed(hotels: seq<Hotel>, rooms: seq<Room>, bookings: seq<Booking>,
                           hotelId: int, roomNumber: int, date: Date) {
    BookingCheckRows(hotels, rooms, bookings, hotelId, roomNumber, date) > 0
  }

  /** The booking check accepts exactly when the hotel exists, the room exists in it, and
      no booking in any hotel holds that room number on that date. */
  lemma BookingAllowedExactly(hotels: seq<Hotel>, rooms: seq<Room>, bookings: seq<Booking>,
                              hotelId: int, roomNumber: int, date: Date)
    ensures BookingAllowed(hotels, rooms, bookings, hotelId, roomNumber, date)
            <==> HotelExists(hotels, hotelId) && RoomExists(rooms, hotelId, roomNumber)
                 && !RoomNumberTaken(bookings, roomNumber, date)
  {
    var nh := Count(hotels, (h: Hotel) => h.hotelId == hotelId);
    var nr := Count(rooms, (r: Room) => r.hotelId == hotelId && r.roomNumber == roomNumber);
    assert nh > 0 <==> HotelExists(hotels, hotelId) by {
      if nh > 0 {
        var i :| 0 <= i < |hotels| && hotels[i].hotelId == hotelId;
        assert hotels[i] in hotels;
      }
    }
    assert nh * nr > 0 <==> nh > 0 && nr > 0;
  }

  /** No two bookings hold the same room number on the same date (the property the
      cross-hotel availability check keeps). */
  predicate NoDoubleBooking(bookings: seq<Booking>) {
    forall i, j :: 0 <= i < j < |bookings| ==>
      bookings[i].roomNumber != bookings[j].roomNumber || bookings[i].bookingDate != bookings[j].bookingDate
  }

  /** Appending a booking whose slot is free keeps every slot held at most once. */
  lemma AppendFreeSlotKeepsNoDoubleBooking(bookings: seq<Booking>, b: Booking)
    requires NoDoubleBooking(bookings)
    requires !RoomNumberTaken(bookings, b.roomNumber, b.bookingDate)
    ensures NoDoubleBooking(bookings + [b])
  {
    var s := bookings + [b];
    forall i, j | 0 <= i < j < |s|
      ensures s[i].roomNumber != s[j].roomNumber || s[i].bookingDate != s[j].bookingDate
    {
      if j == |bookings| {
        assert s[i] == bookings[i] && bookings[i] in bookings;
      }
    }
  }

  /** A booking the check accepts keeps the bookings free of double bookings. */
  lemma AllowedBookingKeepsNoDoubleBooking(hotels: seq<Hotel>, rooms: seq<Room>, bookings: seq<Booking>,
                                           b: Booking)
    requires NoDoubleBooking(bookings)
    requires BookingAllowed(hotels, rooms, bookings, b.hotelId, b.roomNumber, b.bookingDate)
    ensures NoDoubleBooking(bookings + [b])
  {
    AppendFreeSlotKeepsNoDoubleBooking(bookings, b);
  }

  /** Without double bookings by room number, no room of any one hotel is booked twice on a date either. */
  lemma NoDoubleBookingPerHotel(bookings: seq<Booking>)
    requires NoDoubleBooking(bookings)
    ensures forall i, j :: 0 <= i < j < |bookings| ==>
              (bookings[i].hotelId, bookings[i].roomNumber, bookings[i].bookingDate)
              != (bookings[j].hotelId, bookings[j].roomNumber, bookings[j].bookingDate)
  {
  }

  /** Once a booking is stored, the check rejects that room number on that date in every hotel. */
  lemma BookedSlotRejectedEverywhere(hotels: seq<Hotel>, rooms: seq<Room>, bookings: seq<Booking>,
                                     b: Booking, hotelId: int)
    ensures !BookingAllowed(hotels, rooms, bookings + [b], hotelId, b.roomNumber, b.bookingDate)
  {
    assert b in bookings + [b];
  }

  /** Storing a booking leaves the availability of every other (room number, date) slot as it was. */
  lemma OtherSlotsUnaffected(bookings: seq<Booking>, b: Booking, roomNumber: int, date: Date)
    requires roomNumber != b.roomNumber || date != b.bookingDate
    ensures RoomNumberTaken(bookings + [b], roomNumber, date) <==> RoomNumberTaken(bookings, roomNumber, date)
  {
    if RoomNumberTaken(bookings + [b], roomNumber, date) {
      var c :| c in bookings + [b] && c.roomNumber == roomNumber && c.bookingDate == date;
      assert c in bookings;
    }
  }

  /** A row of the room listing. */
  datatype RoomOffer = RoomOffer(roomNumber: int, price: int)

  /** The listing's row for one room, if it is in the hotel and its number is free on the date. */
  function OfferFor(bookings: seq<Booking>, hotelId: int, date: Date, r: Room): Option<RoomOffer> {
    if r.hotelId == hotelId && !RoomNumberTaken(bookings, r.roomNumber, date)
    then Some(RoomOffer(r.roomNumber, r.price))
    else None
  }

  /** The number of room rows whose listing row is `o`. */
  function RoomsOffered(rooms: seq<Room>, bookings: seq<Booking>, hotelId: int, date: Date, o: RoomOffer): nat
    decreases |rooms|
  {
    if rooms == [] then 0
    else (if OfferFor(bookings, hotelId, date, rooms[0]) == Some(o) then 1 else 0)
         + RoomsOffered(rooms[1..], bookings, hotelId, date, o)
  }

  /** The listing has one row per room row it selects. */
  lemma {:induction false} AvailableRoomsCounted(rooms: seq<Room>, bookings: seq<Booking>, hotelId: int, date: Date,
                                                 o: RoomOffer)
    ensures multiset(MapFilter(rooms, (x: Room) => OfferFor(bookings, hotelId, date, x)))[o]
            == RoomsOffered(rooms, bookings, hotelId, date, o)
    decreases |rooms|
  {
    if rooms != [] {
      AvailableRoomsCounted(rooms[1..], bookings, hotelId, date, o);
    }
  }

  /** The room listing: the number and price of each room of the hotel whose number no
      booking holds on the date, in table order. */
  function AvailableRooms(rooms: seq<Room>, bookings: seq<Booking>, hotelId: int, date: Date): (r: seq<RoomOffer>)
    ensures forall o :: o in r <==>
              exists i :: 0 <= i < |rooms| && rooms[i].hotelId == hotelId && o == RoomOffer(rooms[i].roomNumber, rooms[i].price)
                          && !RoomNumberTaken(bookings, rooms[i].roomNumber, date)
    ensures forall o :: multiset(r)[o] == RoomsOffered(rooms, bookings, hotelId, date, o)
  {
    var f := (x: Room) => OfferFor(bookings, hotelId, date, x);
    var r := MapFilter(rooms, f);
    forall o ensures multiset(r)[o] == RoomsOffered(rooms, bookings, hotelId, date, o) {
      AvailableRoomsCounted(rooms, bookings, hotelId, date, o);
    }
    assert forall o :: o in r ==> exists i :: 0 <= i < |rooms| && f(rooms[i]) == Some(o) by {
      forall o | o in r ensures exists i :: 0 <= i < |rooms| && f(rooms[i]) == Some(o) {
        var k :| 0 <= k < |r| && r[k] == o;
      }
    }
    r
  }

  /** For an existing hotel, a room is listed as available on a date exactly when the
      booking check would accept it. */
  lemma ListedIffBookable(hotels: seq<Hotel>, rooms: seq<Room>, bookings: seq<Booking>,
                          hotelId: int, roomNumber: int, date: Date)
    requires HotelExists(hotels, hotelId)
    ensures (exists o :: o in AvailableRooms(rooms, bookings, hotelId, date) && o.roomNumber == roomNumber)
            <==> BookingAllowed(hotels, rooms, bookings, hotelId, roomNumber, date)
  {
    BookingAllowedExactly(hotels, rooms, bookings, hotelId, roomNumber, date);
    var listing := AvailableRooms(rooms, bookings, hotelId, date);
    if RoomExists(rooms, hotelId, roomNumber) && !RoomNumberTaken(bookings, roomNumber, date) {
      var r :| r in rooms && r.hotelId == hotelId && r.roomNumber == roomNumber;
      var i :| 0 <= i < |rooms| && rooms[i] == r;
      assert RoomOffer(r.roomNumber, r.price) in listing;
    }
    if exists o :: o in listing && o.roomNumber == roomNumber {
      var o :| o in listing && o.roomNumber == roomNumber;
      var i :| 0 <= i < |rooms| && rooms[i].hotelId == hotelId && o == RoomOffer(rooms[i].roomNumber, rooms[i].price)
               && !RoomNumberTaken(bookings, rooms[i].roomNumber, date);
      assert rooms[i] in rooms;
    }
  }

  /** Two hotels that both have a room 101; room 101 of the first is booked on 01/15/2024. */
  function CrossHotelHotels(): seq<Hotel> {
    [Hotel(1, "Harbor", 10), Hotel(2, "Summit", 20)]
  }

  function CrossHotelRooms(): seq<Room> {
    [Room(1, 101, 120, "h1-101.jpg"), Room(2, 101, 90, "h2-101.jpg")]
  }

  function CrossHotelBookings(): seq<Booking> {
    [Booking(1, 30, 1, 101, Mdy(1, 15, 2024))]
  }

  /** The same room on the same date is rejected; the next day it is accepted. */
  lemma SameSlotRejectedNextDayAccepted()
    ensures !BookingAllowed(CrossHotelHotels(), CrossHotelRooms(), CrossHotelBookings(), 1, 101, Mdy(1, 15, 2024))
    ensures BookingAllowed(CrossHotelHotels(), CrossHotelRooms(), CrossHotelBookings(), 1, 101, Mdy(1, 16, 2024))
  {
    assert CrossHotelBookings()[0] in CrossHotelBookings();
    assert CrossHotelHotels()[0] in CrossHotelHotels();
    assert CrossHotelRooms()[0] in CrossHotelRooms();
    BookingAllowedExactly(CrossHotelHotels(), CrossHotelRooms(), CrossHotelBookings(), 1, 101, Mdy(1, 16, 2024));
  }

  /** The second hotel's room 101 has no booking, yet the check rejects it on 01/15/2024 and
      the listing leaves it out. */
  lemma CrossHotelConflict()
    ensures RoomExists(CrossHotelRooms(), 2, 101)
    ensures forall c :: c in CrossHotelBookings() ==> c.hotelId != 2
    ensures !BookingAllowed(CrossHotelHotels(), CrossHotelRooms(), CrossHotelBookings(), 2, 101, Mdy(1, 15, 2024))
    ensures AvailableRooms(CrossHotelRooms(), CrossHotelBookings(), 2, Mdy(1, 15, 2024)) == []
  {
    assert CrossHotelBookings()[0] in CrossHotelBookings();
    assert CrossHotelRooms()[1] in CrossHotelRooms();
    var listing := AvailableRooms(CrossHotelRooms(), CrossHotelBookings(), 2, Mdy(1, 15, 2024));
    if listing != [] {
      assert listing[0] in listing;
    }
  }
}
