# Hotel management database: a verified model

This project models the workflows of a small hotel-management client (`java/src/Hotel.java`).
The client keeps everything in a relational database and offers two menus:

- Customers can register, log in, list the free rooms of a hotel on a date, book a room,
  and see their bookings.
- Managers and admins can change a room's price and image, see their recent updates,
  see the bookings in a date range, list a hotel's regular customers, file repair
  requests, and see their repair history.

Each workflow is one SQL statement, or a few, built from what the operator types. The model
keeps the queries' WHERE clauses, orderings and limits as written. Joins on key columns
become lookups of the first matching row, ties under `ORDER BY ... LIMIT` fall in table
order, and the regular-customers query text is given its evident meaning; "## Left out"
says what each of these does not capture.

The project has these modules:

- `Seqs`: scans over a table (a filtered projection, `count(*)`, the first match).
- `Ordering`: a stable sort and `ORDER BY ... LIMIT k`.
- `Dates`: the `MM/DD/YYYY` pattern of the date prompts. It is a parser whose accepted
  strings are proved to be the regular expression's language. That language includes
  the one final line terminator that `$` of java.util.regex lets pass.
- `Prompts`: the retry-until-valid prompt loops.
- `Schema`: the rows of the seven tables, the role check, the ownership check,
  the room check and log-in.
- `Reservations`: the booking check and the room listing. Both look for a conflicting
  booking by room number and date only, in every hotel.
- `Maintenance`: the room update and the repair-request link.
  - The room update's `UPDATE` selects rooms by number alone, so it reprices that room
    number in every hotel.
  - The repair request names the repair whose id is the current row count of the
    repairs table.
- `Reports`: the report queries.
- `Store`: the class `HotelDb`.
  - Its fields are the tables, plus the last value of each serial id sequence.
  - It has one method or function per workflow.
  - A workflow's typed entries are sequence parameters, in the order typed.
  - When the entries run out before a prompt accepts one, the workflow ends with
    `InputExhausted` and changes nothing. In the client, a prompt keeps asking while the
    operator keeps typing. At the end of input `readLine` returns null: the date prompts
    then fail with a NullPointerException in `pattern.matcher`, which aborts the workflow,
    and the hotel and room prompts put `null` into their queries, find no row and loop
    forever.

The model follows the code as written. In particular:

- A booking in one hotel blocks that room number on that date in every hotel.
- The room update reprices the room number in all hotels.
- The customer report keeps the five *earliest* bookings, although its message says
  "last 5 recent".
- The booking-history report checks only the caller's role, not which hotels they manage.
- A repair request is linked through `count(*)`, so once repair ids are no longer 1..n
  (any gap in the serial: a removed row, or an id taken by an insert that then failed) it
  names the wrong repair (`Maintenance.GapMisLinksRequest`).
- Once a customer has five priced bookings, a new booking dated after all of them is
  made but never shown in their report (`Store.LaterBookingNotShown`).

## Model

| member | source | states |
|---|---|---|
| Dates.ParseDateIffPattern | java/src/Hotel.java:413 | the validator accepts a string exactly when the date regular expression matches it, `$` with its final-terminator allowance included |
| Dates.ParseDateValues | java/src/Hotel.java:413 | an accepted string is read as the month, day and year its three tokens spell |
| Dates.FormatThenParse | java/src/Hotel.java:413 | every `Date` (month 1–12, day 1–31, year up to 9999), written as `MM/DD/YYYY`, is accepted and read back unchanged |
| Dates.LeadingZerosIgnored | java/src/Hotel.java:413 | `1/5/2024` and `01/05/2024` are both accepted, as the same date |
| Dates.AcceptedExamples | java/src/Hotel.java:413 | unpadded dates, 12/31, 02/31 and a date followed by a final line terminator are all accepted |
| Dates.RejectedExamples | java/src/Hotel.java:413 | month 13, month 0, day 32 and a two-digit year are rejected |
| Dates.ParseDate | java/src/Hotel.java:413-425 | the reading of a typed date: defined exactly when the pattern matches (`ParseDateIffPattern`), and then the date its tokens spell (`ParseDateValues`) |
| Dates.IsValidDate | java/src/Hotel.java:418-425 | the condition the date prompts loop on: the pattern matches the line |
| Prompts.AcceptFirst | java/src/Hotel.java:418-425 | the retry loop stops at the first accepted entry: no earlier entry is accepted, and it returns `FirstIndex` |
| Prompts.DateEntry | java/src/Hotel.java:418-425 | the date a prompt settles on: the reading of the first valid line, none when no line is valid (`DateEntryIsFirstValid`) |
| Prompts.AfterDateEntry | java/src/Hotel.java:640-658 | the lines the lower-bound prompt leaves for the upper-bound prompt: the ones after the first valid line, fewer than before |
| Prompts.ReadDate | java/src/Hotel.java:418-425 | a date prompt settles on `DateEntry` of the lines and leaves the lines after the accepted one |
| Prompts.DateEntryIsFirstValid | java/src/Hotel.java:418-425 | the prompt yields no date exactly when no line is valid; otherwise it yields the reading of the first valid line |
| Schema.Privileged | java/src/Hotel.java:539-545 | the role check's count is non-zero exactly when a user row has that id and type `manager` or `admin` |
| Schema.Manages | java/src/Hotel.java:553-555 | the ownership count is non-zero exactly when a hotel row has that id and that manager |
| Schema.RoomExists | java/src/Hotel.java:566-568 | the room count is non-zero exactly when the hotel has a room with that number |
| Schema.LogIn | java/src/Hotel.java:388-404 | log-in returns the typed id exactly when some row matches both id and password, and nothing otherwise |
| Schema.RegisteredCustomerNotPrivileged | java/src/Hotel.java:372-375 | a freshly registered `Customer` fails the role check |
| Schema.RegisteredUserCanLogIn | java/src/Hotel.java:395-398 | a freshly registered user can log in with the password given |
| Schema.ManagedChoice | java/src/Hotel.java:550-559 | the hotel the prompt settles on: the first entry the caller manages (`PromptManagedHotel`) |
| Schema.RoomChoice | java/src/Hotel.java:563-574 | the room the prompt settles on: the first entry with a room row in that hotel (`PromptRoom`) |
| Reservations.BookingAllowedExactly | java/src/Hotel.java:493-508 | the booking check returns a row exactly when the hotel exists, the room exists in it, and no booking in any hotel holds that room number on that date |
| Reservations.AppendFreeSlotKeepsNoDoubleBooking | java/src/Hotel.java:510-515 | inserting a booking for a free (room number, date) slot keeps every slot held at most once |
| Reservations.AllowedBookingKeepsNoDoubleBooking | java/src/Hotel.java:493-515 | a booking the check accepts keeps the bookings free of double bookings |
| Reservations.NoDoubleBookingPerHotel | java/src/Hotel.java:493-499 | without double bookings by room number, no (hotel, room, date) is booked twice either |
| Reservations.BookedSlotRejectedEverywhere | java/src/Hotel.java:493-499 | once a booking is stored, its room number on its date is rejected in every hotel |
| Reservations.OtherSlotsUnaffected | java/src/Hotel.java:493-499 | storing a booking changes the availability of no other (room number, date) slot |
| Reservations.AvailableRooms | java/src/Hotel.java:427-432 | the listing holds exactly the (number, price) of the hotel's rooms whose number no booking holds on the date, once per such room row (`RoomsOffered`) |
| Reservations.AvailableRoomsCounted | java/src/Hotel.java:427-431 | each (number, price) occurs in the listing as many times as there are free room rows of the hotel that offer it |
| Reservations.ListedIffBookable | java/src/Hotel.java:427-432 | for an existing hotel, a room number is listed on a date exactly when the booking check would accept it |
| Reservations.SameSlotRejectedNextDayAccepted | java/src/Hotel.java:493-508 | a booked room is rejected on its date and accepted on the next day |
| Reservations.CrossHotelConflict | java/src/Hotel.java:493-499 | room 101 of a second hotel has no booking, yet it is rejected and not listed because room 101 of another hotel is booked |
| Reservations.BookingCheckRows | java/src/Hotel.java:493-501 | the booking SELECT's row count: none when the number is taken on the date in any hotel, otherwise hotel rows times room rows (`BookingAllowedExactly`) |
| Reservations.BookingAllowed | java/src/Hotel.java:501-508 | the `rows == 0` test: the booking goes ahead exactly when the check returns a row |
| Maintenance.SetPriceAndImage | java/src/Hotel.java:580-583 | every room with the number, in every hotel, gets the price and image; all other rows and all keys are unchanged |
| Maintenance.UpdateKeepsRoomKeys | java/src/Hotel.java:580-583 | the update neither adds nor removes a (hotel, room number) pair |
| Maintenance.UpdateIdempotent | java/src/Hotel.java:580-583 | applying the same update twice gives what applying it once gives |
| Maintenance.UpdateKeepsAvailability | java/src/Hotel.java:580-583 | the update changes no booking decision |
| Maintenance.UpdateReachesOtherHotels | java/src/Hotel.java:580-583 | updating room 101 for one hotel also reprices room 101 of another hotel |
| Maintenance.FilingKeepsDense | java/src/Hotel.java:774-776 | filing a repair with the next id keeps the repair ids 1, 2, ... with none missing |
| Maintenance.RequestShowsNewRepair | java/src/Hotel.java:779-783 | with dense ids, the request that names the row count shows the new repair in its manager's history |
| Maintenance.GapMisLinksRequest | java/src/Hotel.java:779-783 | once repair ids have a gap (id 1 missing), the request names an older repair and the new one is missing from the history |
| Maintenance.RepairNamedTwiceShownTwice | java/src/Hotel.java:802-806 | two requests naming one repair show it twice in the history |
| Reports.RoomPrice | java/src/Hotel.java:526-528 | the join finds a price exactly when the booked room exists, and it is that room's price |
| Reports.UserName | java/src/Hotel.java:662-665 | the join finds a name exactly when a user has the booking's customer id, and it is that user's name |
| Reports.CustomerLines | java/src/Hotel.java:526-528 | a line is in the customer's bookings exactly when some booking of theirs has that hotel, room and date, billed at the room's price; each line occurs once per such booking (`BookingsBilledAs`) |
| Reports.CustomerLinesCounted | java/src/Hotel.java:526-528 | the join of bookings and rooms yields each line as many times as the customer's bookings are billed as it |
| Reports.EarliestFive | java/src/Hotel.java:526-530 | `ORDER BY bookingDate LIMIT 5` then ascending: at most five lines, in date order, none later than a line left out, all lines when there are five or fewer |
| Reports.RecentBookings | java/src/Hotel.java:526-530 | the customer's report: `Min(5, n)` of their priced bookings, in date order, none later than a booking left out, all when there are five or fewer |
| Reports.ManagerUpdates | java/src/Hotel.java:609-611 | a log row is selected exactly when it belongs to the caller, and as often as the log holds it |
| Reports.ManagerUpdatesCounted | java/src/Hotel.java:609-611 | selecting the caller's rows keeps each as often as the log holds it, and no other row |
| Reports.LatestFive | java/src/Hotel.java:609-611 | `ORDER BY updatedOn DESC LIMIT 5` then ascending: up to five rows, oldest first, none older than a row left out |
| Reports.RecentUpdates | java/src/Hotel.java:609-611 | the caller's latest log rows: `Min(5, n)` of them, oldest first, each one of the caller's rows, none older than a row left out |
| Reports.BookerNames | java/src/Hotel.java:710-714 | a name is joined to the hotel's bookings exactly when some booking at that hotel is by a user with that name |
| Reports.GroupSizeIsBookingsNamed | java/src/Hotel.java:714 | a name's `COUNT(*)` group size is the number of the hotel's bookings made by users with that name |
| Reports.Groups | java/src/Hotel.java:714 | `GROUP BY U.name`: one row per distinct name, carrying that name's number of occurrences |
| Reports.RankTop | java/src/Hotel.java:715-716 | `ORDER BY NumBookings DESC LIMIT 5`: at most five groups, non-increasing, none below a group left out |
| Reports.RankedRowsAreGroups | java/src/Hotel.java:710-716 | every ranked row is a name of the join with its group count |
| Reports.RankedNamesDistinct | java/src/Hotel.java:710-716 | no name appears twice in the ranking |
| Reports.UnlistedNamesNotMoreFrequent | java/src/Hotel.java:710-716 | a name left out has no more bookings than any name listed |
| Reports.FewNamesAllListed | java/src/Hotel.java:710-716 | with five or fewer distinct names, every name is listed |
| Reports.TopGroups | java/src/Hotel.java:710-716 | the ranking of a name column: at most five rows, most frequent first, each a distinct name of the column with its exact count |
| Reports.TopGroupsComplete | java/src/Hotel.java:710-716 | no name left out of the ranking occurs more often than a name shown; with at most five distinct names, all are shown |
| Reports.RegularCustomersRanked | java/src/Hotel.java:710-717 | one row per distinct booker name at the hotel, at most five, no name twice, most bookings first |
| Reports.RegularCustomersCounts | java/src/Hotel.java:710-717 | each row's count is the number of the hotel's bookings under that name; no name left out has more bookings than a name listed; with at most five names none is left out |
| Reports.RegularCustomersRanks | java/src/Hotel.java:710-717 | the report meets every promise of `RanksRegularCustomers`: size, order, distinct names, exact counts and completeness |
| Reports.RegularCustomers | java/src/Hotel.java:710-717 | the report: the ranking of the hotel's booker names; its promises are `RegularCustomersRanks` |
| Reports.SameNameCountedTogether | java/src/Hotel.java:714 | two users who share a name are reported as one row carrying both their bookings |
| Reports.BookingHistory | java/src/Hotel.java:661-667 | the bookings dated within the inclusive range whose hotel and customer rows exist, in every hotel, in date order; each row occurs once per booking that shows it |
| Reports.HistoryLines | java/src/Hotel.java:661-665 | the three-table join: exactly the in-range bookings with hotel and user rows, at most one row per booking |
| Reports.HistoryRowsCounted | java/src/Hotel.java:661-667 | the three-table join yields each row as many times as there are bookings showing it (`BookingsShownAs`) |
| Reports.RepairHistory | java/src/Hotel.java:802-806 | a line is reported exactly when some request of the caller names the repair it shows, once per such (request, repair) pair (`PairsShownAs`) |
| Reports.RepairsNamedCounted | java/src/Hotel.java:804-806 | the repairs with one id yield one line per such repair |
| Reports.JoinFirstRequestCounts | java/src/Hotel.java:802-806 | the join over all requests counts the first request's pairs plus those of the rest |
| Store.HotelDb.PromptManagedHotel | java/src/Hotel.java:547-559 | the hotel prompt settles on the first entry the caller manages |
| Store.HotelDb.PromptRoom | java/src/Hotel.java:561-573 | the room prompt settles on the first entry with a room row in the chosen hotel |
| Store.HotelDb.CreateUser | java/src/Hotel.java:367-381 | appends a `Customer` row with the next user id; if ids were fresh, the new user fails the role check; the user can log in |
| Store.HotelDb.ViewRooms | java/src/Hotel.java:408-436 | lists the hotel's free rooms on the first valid date; for an existing hotel, every listed room passes the booking check |
| Store.HotelDb.BookRoom | java/src/Hotel.java:468-521 | no valid date gives no change; a rejected slot gives no change; otherwise exactly one booking with the next id is appended; no slot is ever double-booked |
| Store.HotelDb.ViewRecentBookings | java/src/Hotel.java:522-536 | the five earliest of the customer's priced bookings (all when fewer, then one line per priced booking), in date order, none later than a booking left out |
| Store.CustomerLinesAfterBooking | java/src/Hotel.java:511-515 | after one more booking the customer's joined lines are the old ones, then the new booking's line when its room has a price |
| Store.RecentBookingsAfterBooking | java/src/Hotel.java:526-530 | the report after one more booking ranks the old lines plus the new booking's line (or just the old lines when its room has no price) |
| Store.AllowedBookingPriced | java/src/Hotel.java:493-505 | a booking that passes the availability check has a line with its hotel, room and date |
| Store.BookingShownWhileFewerThanFive | java/src/Hotel.java:493-530 | a booking that passes the check, made while the customer has fewer than five priced bookings, shows up in their report with its hotel, room and date |
| Store.ShortReportKeepsLine | java/src/Hotel.java:529 | with fewer than five earlier lines, `LIMIT 5` keeps the new line |
| Store.LaterBookingNotShown | java/src/Hotel.java:526-530 | once the customer has five priced bookings all earlier than a new booking, no reported line carries the new booking's date |
| Store.LaterLineLeftOut | java/src/Hotel.java:529 | five lines all earlier than one more line push it out of the earliest five |
| Store.EarlierLinesKeepDates | java/src/Hotel.java:529 | the earliest five of lines all earlier than a date show no line on that date |
| Store.HotelDb.UpdateRoomInfo | java/src/Hotel.java:537-596 | role check, then the two prompts, each ending the workflow with `InputExhausted` when its entries run out; then the rooms become `SetPriceAndImage` of the old rooms and one log row is appended; every failure leaves the tables as they were |
| Store.HotelDb.ViewRecentUpdates | java/src/Hotel.java:597-616 | behind the role check: the caller's five latest log rows (all when fewer), oldest first, none older than a row left out |
| Store.HotelDb.ViewBookingHistory | java/src/Hotel.java:617-675 | behind the role check only: the booking history between the first and second valid dates of one input stream |
| Store.HotelDb.ViewRegularCustomers | java/src/Hotel.java:676-724 | role check, then ownership check of the one hotel entered; then `RanksRegularCustomers`: at most five distinct names, most bookings first, each with its booking count, none left out with more bookings |
| Store.HotelDb.PlaceRoomRepairRequest | java/src/Hotel.java:725-789 | role check, then the two prompts, each ending the workflow with `InputExhausted` when its entries run out; then one repair and one request naming the repair count; with dense ids the history shows the new repair |
| Store.HotelDb.FileRepairRequest | java/src/Hotel.java:774-783 | appends the repair with the next id and the request naming the repair count; keeps repair ids dense |
| Store.HotelDb.ViewRoomRepairHistory | java/src/Hotel.java:790-811 | behind the role check: exactly the repairs the caller's requests name, once per (request, repair) pair |

## Left out

- `viewHotels` (the distance search) is not modelled. It works on floating-point coordinates and
  a stored SQL function (`calculate_distance`) whose body is not part of this model. The hotel
  columns it reads (latitude, longitude, establishment date) are also left out.
- The database connection, the JDBC calls, result printing and the menus are not modelled.
  Nor is the way statements are built by string formatting, or SQL injection through the
  typed text.
- Concurrency between clients sharing the database is not modelled.
- `CreateUser` does not report the new id. The client reads it back from the sequence, and
  that read is output only.
- Typed text is not cast. Ids, room numbers and prices are integers from the start.
  - A non-numeric entry raises an exception in the client, which aborts the workflow.
    That path is not modelled.
  - Prices are whole numbers, not SQL numerics.
- Scanner-read ids get no retry, as in the client. For `bookRooms` and
  `viewRegularCustomers` they are plain parameters.
- The clock and the current date are not modelled. They are the `now` and `today`
  parameters, and `updatedOn` is an integer clock reading.
- Dates beyond the pattern have no calendar semantics. The store's cast of `02/31/2024`
  would fail, while the model reads it as month 2, day 31. Dates are compared as
  (year, month, day).
- `ParseDate` reads an accepted line as the date its tokens spell. A line accepted only
  because of a final U+0085, U+2028 or U+2029 (which `readLine` keeps) is passed to the
  store with that character; whether the store's date cast accepts it is not modelled.
- Joins on key columns are modelled as lookups of the first matching row. The model does
  not enforce primary-key constraints.
- The regular-customers query text concatenates the hotel id with
  `GROUP BY` without a space. The model gives the query its evident meaning (filter by
  hotel, group by name) and does not model how a given database parses that text.
- The hotel, room and date prompts re-prompt on bad entries in the client. The model ends
  the workflow with `InputExhausted` when the entries run out; it does not model the
  client's end-of-input behaviour (the exception of the date prompts, the endless loop of
  the hotel and room prompts).
- Ties under `ORDER BY ... LIMIT` resolve in table order in the model (a stable sort).
  SQL leaves them unspecified, so the set kept on a tie may differ.
