/** The two writes a manager makes besides bookings: the room update, whose UPDATE
    statement selects rooms by number alone, and the repair request, which links to
    its repair through the `count(*)` of the repairs table. */
module Maintenance {
  import opened Dates
  import opened Schema
  import opened Reservations
  import opened Reports

  // ---- Room updates ----------------------------------------------------------------

  /** `UPDATE Rooms SET price, imageURL WHERE roomNumber = n`: every room with that number,
      in every hotel, gets the new price and image URL; every other row is left as it was. */
  function SetPriceAndImage(rooms: seq<Room>, roomNumber: int, price: int, imageUrl: string): (r: seq<Room>)
    ensures |r| == |rooms|
    ensures forall i :: 0 <= i < |rooms| ==> r[i].hotelId == rooms[i].hotelId && r[i].roomNumber == rooms[i].roomNumber
    ensures forall i :: 0 <= i < |rooms| && rooms[i].roomNumber == roomNumber ==> r[i].price == price && r[i].imageUrl == imageUrl
    ensures forall i :: 0 <= i < |rooms| && rooms[i].roomNumber != roomNumber ==> r[i] == rooms[i]
    decreases |rooms|
  {
    if rooms == [] then []
    else
      var head := if rooms[0].roomNumber == roomNumber then rooms[0].(price := price, imageUrl := imageUrl) else rooms[0];
      var rest := SetPriceAndImage(rooms[1..], roomNumber, price, imageUrl);
      assert forall i :: 1 <= i < |rooms| ==> rooms[i] == rooms[1..][i - 1];
      [head] + rest
  }

  /** The update adds and removes no room: the same (hotel, room number) pairs exist after it. */
  lemma UpdateKeepsRoomKeys(rooms: seq<Room>, roomNumber: int, price: int, imageUrl: string, hotelId: int, n: int)
    ensures RoomExists(SetPriceAndImage(rooms, roomNumber, price, imageUrl), hotelId, n) <==> RoomExists(rooms, hotelId, n)
  {
    var r := SetPriceAndImage(rooms, roomNumber, price, imageUrl);
    if RoomExists(r, hotelId, n) {
      var x :| x in r && x.hotelId == hotelId && x.roomNumber == n;
      var i :| 0 <= i < |r| && r[i] == x;
      assert rooms[i] in rooms;
    }
    if RoomExists(rooms, hotelId, n) {
      var x :| x in rooms && x.hotelId == hotelId && x.roomNumber == n;
      var i :| 0 <= i < |rooms| && rooms[i] == x;
      assert r[i] in r;
    }
  }

  /** Repeating an update changes nothing more. */
  lemma {:induction false} UpdateIdempotent(rooms: seq<Room>, roomNumber: int, price: int, imageUrl: string)
    ensures SetPriceAndImage(SetPriceAndImage(rooms, roomNumber, price, imageUrl), roomNumber, price, imageUrl)
            == SetPriceAndImage(rooms, roomNumber, price, imageUrl)
  {
    var once := SetPriceAndImage(rooms, roomNumber, price, imageUrl);
    var twice := SetPriceAndImage(once, roomNumber, price, imageUrl);
    forall i | 0 <= i < |rooms| ensures twice[i] == once[i] {
      if rooms[i].roomNumber == roomNumber {
        assert twice[i] == Room(rooms[i].hotelId, roomNumber, price, imageUrl) == once[i];
      }
    }
  }

  /** The update changes no booking decision: availability depends on hotels, room keys and bookings only. */
  lemma UpdateKeepsAvailability(hotels: seq<Hotel>, rooms: seq<Room>, bookings: seq<Booking>,
                                roomNumber: int, price: int, imageUrl: string,
                                hotelId: int, n: int, date: Date)
    ensures BookingAllowed(hotels, SetPriceAndImage(rooms, roomNumber, price, imageUrl), bookings, hotelId, n, date)
            <==> BookingAllowed(hotels, rooms, bookings, hotelId, n, date)
  {
    var r := SetPriceAndImage(rooms, roomNumber, price, imageUrl);
    BookingAllowedExactly(hotels, r, bookings, hotelId, n, date);
    BookingAllowedExactly(hotels, rooms, bookings, hotelId, n, date);
    UpdateKeepsRoomKeys(rooms, roomNumber, price, imageUrl, hotelId, n);
  }

  /** The manager of hotel 1 updates room 101; hotel 2's room 101 is repriced as well. */
  lemma UpdateReachesOtherHotels()
    ensures SetPriceAndImage([Room(1, 101, 120, "h1.jpg"), Room(2, 101, 90, "h2.jpg")], 101, 150, "new.jpg")[1]
            == Room(2, 101, 150, "new.jpg")
  {
    var rooms := [Room(1, 101, 120, "h1.jpg"), Room(2, 101, 90, "h2.jpg")];
    var r := SetPriceAndImage(rooms, 101, 150, "new.jpg");
    assert rooms[1].roomNumber == 101;
    assert r[1].hotelId == 2 && r[1].roomNumber == 101 && r[1].price == 150 && r[1].imageUrl == "new.jpg";
  }

  // ---- Repair requests -------------------------------------------------------------

  /** The repair ids are 1, 2, ... in table order and the id sequence has issued exactly
      as many values as there are rows (no repair was ever removed). */
  predicate DenseRepairIds(repairs: seq<Repair>, lastRepairId: int) {
    lastRepairId == |repairs| && forall i :: 0 <= i < |repairs| ==> repairs[i].repairId == i + 1
  }

  /** Filing a repair with the next id keeps the ids dense. */
  lemma FilingKeepsDense(repairs: seq<Repair>, lastRepairId: int, rp: Repair)
    requires DenseRepairIds(repairs, lastRepairId)
    requires rp.repairId == lastRepairId + 1
    ensures DenseRepairIds(repairs + [rp], lastRepairId + 1)
  {
  }

  /** With dense ids, the request that names the repair count shows the repair just filed
      in its manager's repair history. */
  lemma RequestShowsNewRepair(repairs: seq<Repair>, lastRepairId: int, rp: Repair,
                              requests: seq<RepairRequest>, q: RepairRequest)
    requires DenseRepairIds(repairs, lastRepairId)
    requires rp.repairId == lastRepairId + 1
    requires q.repairId == |repairs| + 1
    ensures LineOfRepair(rp) in RepairHistory(repairs + [rp], requests + [q], q.managerId)
  {
    var rs := repairs + [rp];
    var qs := requests + [q];
    assert qs[|requests|] == q && rs[|repairs|] == rp;
  }

  /** Two requests of one manager that name the same repair show it twice: the join
      yields one row per (request, repair) pair. */
  lemma RepairNamedTwiceShownTwice()
    ensures var a := Repair(1, 40, 1, 101, Mdy(3, 1, 2024));
            multiset(RepairHistory([a], [RepairRequest(1, 10, 1), RepairRequest(2, 10, 1)], 10))[LineOfRepair(a)] == 2
  {
    var a := Repair(1, 40, 1, 101, Mdy(3, 1, 2024));
    var qs := [RepairRequest(1, 10, 1), RepairRequest(2, 10, 1)];
    assert RepairsShownAs([a], 1, LineOfRepair(a)) == 1;
    assert qs[1..] == [RepairRequest(2, 10, 1)] && qs[1..][1..] == [];
  }

  /** Once repair ids are no longer 1..n (here id 1 is missing: a removed row, or an id the
      serial handed to an insert that then failed), the count of repairs no longer names the
      new repair: the request filed for repair 3 points at repair 2, and the history does not
      show repair 3. */
  lemma GapMisLinksRequest()
    ensures var old2 := Repair(2, 40, 1, 101, Mdy(3, 1, 2024));
            var new3 := Repair(3, 41, 1, 102, Mdy(3, 2, 2024));
            LineOfRepair(new3) !in RepairHistory([old2, new3], [RepairRequest(1, 10, |[old2, new3]|)], 10)
  {
  }
}
