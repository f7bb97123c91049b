# Hotel back-office API — a verified model

This project models the business rules of a hotel back-office REST API (Express over
MongoDB/Mongoose) and proves properties of them in Dafny. The API manages rooms, guests,
reservations and payments. It also produces a monthly report and authenticates back-office
users with bearer tokens.

The database appears as an in-memory store: the class `Store.Db` holds one sequence per collection
(rooms, guests, reservations, payments, users) and a counter that hands out document identifiers.
Its invariant `Db.Valid` says that identifiers are unique and below the counter, and that the
unique indexes hold (room number, guest e-mail, user e-mail).

Every handler is modelled in two layers:

- a function on the values of the store. It returns the HTTP status, a JSON payload datatype and
  the collections afterwards.
- a method on `Db` for each handler that writes. It applies that outcome and `modifies` only the
  fields it changes.

Lemmas beside each handler state its answers in the order the code checks them. They prove that
every error path writes nothing, and that the store's invariants survive every request.

Modules, following the repository's structure:

- `Common`, `Strings`, `Query`: JSON values and responses; ECMAScript `trim`, `toLowerCase` and
  `split`; the store's query operators (`find`, `findOne`, `sort`, `skip`/`limit`, `$sum`,
  unique indexes).
- `Models`: the schemas of rooms, guests, reservations and payments. This covers their
  enumerations, defaults, minimums, setters and the guest e-mail validator (proved equal to the
  language of its regular expression).
- `Store`: the `Db` class and the lemmas that keep its invariant.
- `Payments`, `Reservations`, `Reports`, `Guests`, `Rooms`: the five controllers.
- `Calendar`: the proleptic Gregorian calendar of `Date.UTC`, which the monthly report relies on.
- `AuthMiddleware`, `AuthService`, `AuthValidator`: bearer-token extraction and the two guards,
  registration, login and profile, and the request schemas.

Where the code and its own messages disagree, the model follows the code:

- The password schema accepts 6 to 100 characters. Its message speaks of 8
  (`AuthValidator.PasswordRule`).
- `createReservation` saves a reservation without `numberOfGuests` and `totalPrice`, which the
  reservation schema requires. The model keeps the handler as written, with the save succeeding.
  `Reservations.BookedReservationMissesRequiredFields` proves that the stored record violates
  the schema.
- `updateReservationStatus` can re-activate a cancelled reservation over a stay that is already
  booked. `Reservations.SetStatusCanDoubleBook` exhibits such a store.
- `listPayments` reports a `totalAmount` of 0 whenever the query filters on a reservation or a
  guest. The aggregation receives the identifiers as strings, and a string never equals a stored
  object identifier. `Payments.ListPayments` states this.

Conventions:

- Dates are integer milliseconds since the Unix epoch.
- Money is an integer amount.
- `Option` stands for an absent field. `JsonValue` carries JavaScript's `typeof` distinctions
  where a handler tests them.
- The clock, the current UTC year and month, and today's local midnight are parameters. So are
  the guest search's regular-expression test, bcrypt, the JWT verifier and the e-mail check of
  the request schema.
- `toLowerCase` and `toUpperCase` act on the ASCII letters only. Every other character is left
  as it is.

## Model

| member | source | states |
|---|---|---|
| Query.ParsePagination | controllers/paymentController.js:12-16 | the value itself when it is a positive number, the default when it is absent, not a number or not positive; positive whenever the default is |
| Query.TotalPages | controllers/paymentController.js:205 | the least positive number of pages of `pageSize` that holds `total` items (1 for no items) |
| Query.PageWithinTotal | controllers/guestController.js:69-85 | with at least one match, `(page - 1) * pageSize` falls inside the matches exactly when `page <= totalPages` |
| Query.Page | controllers/paymentController.js:179-180 | `skip(n).limit(m)`: at most `m` documents, exactly those at positions `n` to `n + m` of the input |
| Query.Sort | controllers/paymentController.js:178 | `sort`: a permutation of its input, ordered on the key in the requested direction |
| Query.ListingFacts | controllers/guestController.js:77-83 | a page of sorted matches is sorted and holds only matching documents of the collection |
| Query.Filter | controllers/paymentController.js:177 | `find(filter)`: every result matches, every matching document is a result, never more than the input |
| Query.FilterCounts | controllers/paymentController.js:176-191 | `find` and `countDocuments` keep each matching document as often as the store holds it and nothing else: the matches are a sub-multiset of the input with the same multiplicity for every match |
| Query.FilterStrongerCountsLess | controllers/reportController.js:131-139 | a stronger filter counts no more documents than a weaker one |
| Query.IndexOf | controllers/reservationsController.js:18 | `findOne`: the first matching document's position, none only when no document matches |
| Query.IndexOfAppendFresh | services/authService.js:25-30 | a created document that matches a filter nothing matched before is what `findOne` finds afterwards |
| Query.SumOfPermutation | controllers/paymentController.js:193-201 | `$sum` does not depend on the order of the documents |
| Query.DistinctAppend | models/Room.js:5 | inserting a document with a new key keeps a unique index unique |
| Query.DistinctReplaceFresh | models/Guest.js:18 | replacing a document by one whose key no other document has keeps a unique index unique |
| Strings.Trim | models/Guest.js:5-9 | `trim`: never longer than the input, and with no ECMAScript whitespace left at either end |
| Strings.TrimKeepsTheMiddle | models/Guest.js:5-9 | the trimmed string is the input's stretch between a whitespace prefix and a whitespace suffix |
| Strings.TrimEmptyExactlyWhitespace | models/Guest.js:5-9 | trimming gives the empty string exactly for an all-whitespace input |
| Strings.TrimIdempotent | models/Guest.js:5-9 | trimming twice is trimming once |
| Strings.TrimIgnoresPadding | services/authService.js:16 | surrounding whitespace never changes what `trim` returns |
| Strings.ToLower | services/authService.js:16 | `toLowerCase`: same length, each ASCII capital lowered, every other character kept |
| Strings.ToLowerForgetsCase | services/authService.js:16 | a string and its upper-cased variant lower-case alike |
| Strings.Split | controllers/roomController.js:74 | `split` on one character: never empty, and joining the pieces back gives the input |
| Strings.SplitJoin | controllers/roomController.js:74 | splitting undoes joining when no piece contains the separator |
| Strings.DecimalRoundTrip | controllers/reportController.js:150 | the decimal rendering of a number reads back as the number |
| Models.ParseRoomType | models/Room.js:6-10 | the type enumeration accepts exactly `individual`, `doble`, `suite` |
| Models.ParseDocumentType | models/Guest.js:29-34 | the document enumeration accepts exactly `ine`, `pasaporte`, `licencia`, `otro` |
| Models.ParsePaymentMethod | models/Payment.js:21-25 | the method enumeration accepts exactly `efectivo`, `tdd`, `tdc` |
| Models.ParseStatus | models/Reservation.js:23-34 | the status enumeration accepts exactly its six names |
| Models.BuildRoom | models/Room.js:3-35 | a room is built exactly when number, known type, `capacity >= 1` and `pricePerNight >= 0` are given; it satisfies the schema, stores the given description trimmed, the given amenities and availability, and otherwise the defaults (empty description, no amenities, available) |
| Models.BuildGuest | models/Guest.js:3-66 | a guest is built exactly when names and phone are non-empty once trimmed, the normalised e-mail passes the validator and the document type is known; it satisfies the schema, stores the normalised e-mail and defaults the type to `otro` |
| Models.BuildGuestStoresFields | models/Guest.js:3-66 | a built guest holds the given names, phone, document number and notes trimmed, and empty document number and notes when absent |
| Models.NormalizeEmailIdempotent | models/Guest.js:15-22 | a stored (trimmed, lower-cased) e-mail normalises to itself |
| Models.TrimLowerCommute | models/Guest.js:19-20 | the `trim` and `lowercase` setters commute |
| Models.NormalizeEmailForgetsVariant | models/Guest.js:15-22 | whitespace around an e-mail and upper case do not change the stored e-mail |
| Models.EmailValidatorMatchesPattern | models/Guest.js:62-66 | the e-mail validator accepts exactly the strings the regular expression matches: dot-separated atoms, `@`, labels each followed by a dot, a top-level name of two or more letters |
| Models.PatternIsValid | models/Guest.js:64 | every string built from atoms, labels and a top-level name passes the validator |
| Models.NewReservation | models/Reservation.js:3-39 | a new reservation has nothing paid, a balance equal to its price and the given status; it satisfies the schema exactly when the contact fields are set, `numberOfGuests >= 1` and `totalPrice >= 0` |
| Store.RoomsAppend | models/Room.js:5 | a room with the next identifier and a new number keeps the rooms' identifiers and numbers unique |
| Store.RoomsReplace | models/Room.js:5 | replacing a room under its identifier, with its own number or an unused one, keeps them unique |
| Store.RoomsRemove | models/Room.js:5 | removing a room keeps them unique |
| Store.GuestsAppend | models/Guest.js:15-22 | a guest with the next identifier and an unused e-mail keeps identifiers and e-mails unique |
| Store.GuestsReplace | models/Guest.js:15-22 | replacing a guest under its identifier, with its own e-mail or an unused one, keeps them unique |
| Store.GuestsRemove | models/Guest.js:15-22 | removing a guest keeps them unique |
| Store.UsersAppend | services/authService.js:18-30 | a user with the next identifier and an unused e-mail keeps the users' identifiers and e-mails unique |
| Payments.ParseDate | controllers/paymentController.js:6-10 | a date exactly when the client sent a valid one, and then that instant |
| Payments.CheckMethod | controllers/paymentController.js:40-45 | accepted exactly when a string lower-cases to an allowed method, which is then stored by name; a number or boolean makes `toLowerCase` throw |
| Payments.CheckPayment | controllers/paymentController.js:30-69 | the validation chain in order: 400 missing reservation, 400 amount not a positive number, 400 unknown method (500 when it throws), 404 unknown reservation, 400 cancelled, 400 amount above a defined balance, 400 invalid date; accepted exactly when every check passes, with `paidAt` or now |
| Payments.ApplyPayment | controllers/paymentController.js:82-90 | `totalPaid` grows by the amount, `balanceDue` is `max(totalPrice - totalPaid, 0)`, and absent without a price (where the code computes NaN), status changes only from pending to confirmed and exactly when the balance reaches 0, nothing else changes |
| Payments.NewReservationLedgerConsistent | models/Reservation.js:18-21 | a reservation with the schema's defaults has a consistent ledger |
| Payments.AcceptedPaymentNeverOverpays | controllers/paymentController.js:58-86 | an amount the balance check lets through keeps the ledger consistent and `totalPaid <= totalPrice` |
| Payments.PaymentKeepsLedgerConsistent | controllers/paymentController.js:82-86 | balance equal to what remains of the price is preserved by every payment |
| Payments.BuildPayment | controllers/paymentController.js:71-80 | the payment refers to the reservation, copies its guest, stores the amount and normalised method, defaults reference, notes and recordedBy to "" and satisfies the schema |
| Payments.BuildPaymentTrimsText | controllers/paymentController.js:71-80 | a reference, notes or recordedBy the request gives is stored trimmed |
| Payments.FindReservation | controllers/paymentController.js:47-50 | `findById`: the reservation with that identifier, none only when no reservation has it |
| Payments.LedgerAfterPayment | controllers/paymentController.js:71-92 | after a payment every reservation's `totalPaid` is still the sum of its payments |
| Payments.RegisterRejectWritesNothing | controllers/paymentController.js:30-69 | every rejection leaves reservations, payments and the identifier counter unchanged and answers the verdict's status and message |
| Payments.RegisterAcceptAppends | controllers/paymentController.js:71-110 | an accepted payment answers 201, appends exactly one payment with the next identifier and replaces only the named reservation, by the ledger update |
| Payments.RegisterKeepsLedger | controllers/paymentController.js:71-92 | every `totalPaid` equal to the sum of its payments is preserved by any request |
| Payments.RegisterStaysWithinPrice | controllers/paymentController.js:58-92 | reservations with a consistent ledger never paid past their price stay so after any request |
| Payments.RegisterKeepsIds | controllers/paymentController.js:71-92 | the identifier invariant of reservations and payments survives any request |
| Payments.RegisterPayment | controllers/paymentController.js:18-115 | the store after `POST /payments` is the outcome of the chain above; rooms, guests and users are unchanged and the store stays valid |
| Payments.BuildPaymentFilter | controllers/paymentController.js:130-169 | 400 for an unknown method filter, then for an invalid start or end date; otherwise the filter of the parameters given, with an inclusive date range |
| Payments.ListPayments | controllers/paymentController.js:171-214 | total over every match, `totalPages` from the page size, and a page of matching store payments sorted on `paidAt`, starting after `(page - 1) * size` matches; `totalAmount` is the sum over every match without a reservation or guest filter and 0 with one, since the aggregation's `$match` compares the uncast identifier strings |
| Payments.GetPayments | controllers/paymentController.js:117-219 | the filter's 400, or the listing with page 1 and 20 per page by default, ascending only when `order` is `asc` |
| Payments.GetPaymentsByReservation | controllers/paymentController.js:246-281 | 400 without a reservation id; otherwise exactly its payments, newest first, their count and their sum |
| Payments.ReservationTotalMatchesLedger | controllers/paymentController.js:270 | the sum the listing reports for a reservation is its `totalPaid` |
| Payments.GetPaymentById | controllers/paymentController.js:221-244 | 200 with the payment exactly when one has the identifier, otherwise 404 "Pago no encontrado." |
| Reservations.OverlapsSymmetric | controllers/reservationsController.js:24-33 | the half-open overlap test is symmetric |
| Reservations.BackToBackIsNoConflict | controllers/reservationsController.js:28-32 | a stay starting when another ends, or overlapping only a cancelled or completed one, is not a conflict |
| Reservations.FindConflict | controllers/reservationsController.js:24-33 | finds a reservation exactly when some pending or confirmed reservation of the room has `checkIn < new checkOut` and `checkOut > new checkIn` |
| Reservations.HasRoomMeans | controllers/reservationsController.js:18-21 | the room lookup succeeds exactly when some room has the number |
| Reservations.Book | controllers/reservationsController.js:11-60 | answers 201, 400, 404, 409 or 500; anything but 201 leaves the reservations and the counter as they were; a 201 keeps the old reservations as a prefix and appends one pending reservation with the drawn identifier |
| Reservations.BookResponses | controllers/reservationsController.js:11-60 | in order: 400 for `checkIn >= checkOut`, 404 unknown room, 500 for a missing or invalid date, 409 exactly for a conflict, else 201; only 201 writes |
| Reservations.BookAppendsPending | controllers/reservationsController.js:42-56 | a 201 appends exactly one pending reservation for the request, with the next identifier and nothing paid |
| Reservations.BookKeepsNoDoubleBooking | controllers/reservationsController.js:24-52 | no two active reservations of one room overlap, before and after any booking |
| Reservations.BookedReservationMissesRequiredFields | controllers/reservationsController.js:42-52 | the reservation a 201 stores violates the schema (no `numberOfGuests`, no `totalPrice`) |
| Reservations.BookKeepsIds | controllers/reservationsController.js:42-52 | the identifier invariant survives a booking |
| Reservations.BookKeepsLedger | controllers/reservationsController.js:42-52 | the ledger agrees with the payments after a booking |
| Reservations.CreateReservation | controllers/reservationsController.js:5-61 | the store after `POST /reservations` is the booking's outcome; other collections unchanged, store valid |
| Reservations.RequestedStatus | controllers/reservationsController.js:68-71 | exactly `pending`, `confirmed`, `cancelled`, `completed` are accepted |
| Reservations.FindById | controllers/reservationsController.js:73-76 | `findById`: the reservation with the identifier, none only when none has it |
| Reservations.SetStatus | controllers/reservationsController.js:63-89 | answers 200, 400 or 404; anything but 200 writes nothing, and no reservation is added or removed |
| Reservations.SetStatusOutcome | controllers/reservationsController.js:63-89 | 400 for another status, then 404 for an unknown id, else 200 with only that reservation's status changed |
| Reservations.SetStatusDeactivatingKeepsNoDoubleBooking | controllers/reservationsController.js:78-79 | cancelling, completing, or moving between active statuses keeps the no-double-booking invariant |
| Reservations.SetStatusCanDoubleBook | controllers/reservationsController.js:78-79 | a store without double booking where re-activating a cancelled reservation creates one |
| Reservations.UpdateReservationStatus | controllers/reservationsController.js:63-89 | the store after the status update is its outcome; other collections unchanged, store valid |
| Reservations.SetStatusKeepsIds | controllers/reservationsController.js:78-79 | a status update keeps every identifier |
| Reservations.RoomNumbers | controllers/reservationsController.js:113-115 | the room numbers of the reservations, in order |
| Reservations.GetAvailableRooms | controllers/reservationsController.js:91-128 | reserved: exactly the active reservations meeting `[todayStart, todayStart + 1 day)`; available: exactly the rooms whose number none of them holds |
| Reservations.GetReservationsByRoom | controllers/reservationsController.js:140-151 | exactly the room's reservations, ascending by check-in |
| Calendar.DaysInMonth | controllers/reportController.js:28 | 28 to 31 days; 29 exactly for a leap February, 30 exactly for April, June, September, November |
| Calendar.YearLength | controllers/reportController.js:26-27 | the closed form of `Date.UTC` gives a year 366 days exactly when it is a Gregorian leap year, else 365 |
| Calendar.MonthsFillYear | controllers/reportController.js:26-27 | the twelve months add up to the year |
| Calendar.DecemberEndsYear | controllers/reportController.js:27 | month 13 of a year is January of the next, as `Date.UTC` normalises it |
| Calendar.KnownDays | controllers/reportController.js:26 | 1970-01-01 is day 0, 2000-01-01 day 10957, 2024-03-01 day 19783 |
| Reports.BuildMonthRange | controllers/reportController.js:25-30 | start is midnight UTC of day 1, end of day 1 of the next month, and `daysInMonth` the Gregorian length, so end − start is that many days |
| Reports.MonthRangesAdjoin | controllers/reportController.js:25-30 | each month ends where the next one starts (December into January) |
| Reports.Nights | controllers/reportController.js:57-82 | the nights of a counted stay clipped to the month, between 0 and `daysInMonth` |
| Reports.BookedNightsBounded | controllers/reportController.js:49-93 | booked nights are non-negative and at most `daysInMonth` per counted reservation |
| Reports.Rate | controllers/reportController.js:95-98 | 0 when the denominator is 0, otherwise `part / whole * 100`; never negative for non-negative parts |
| Reports.RateOfPartBounded | controllers/reportController.js:141-144 | a part of a whole gives a rate in [0, 100] |
| Reports.FindReservationById | controllers/reportController.js:107-114 | the `$lookup`: the reservation with the payment's identifier, if any |
| Reports.IncomeEntriesMeans | controllers/reportController.js:100-114 | one entry per payment with `start <= paidAt < end` whose reservation exists, in store order: entry k is the room of the k-th such payment's reservation and that payment's amount |
| Reports.IncomeIsKeptPayments | controllers/reportController.js:100-129 | the entries' income is the sum of the amounts of those payments, each counted once |
| Reports.GroupByRoom | controllers/reportController.js:115-123 | `$group` by room then `$sort`: strictly ascending room numbers |
| Reports.GroupByRoomCorrect | controllers/reportController.js:115-123 | a room has a line exactly when some entry is for it, with that room's total income and payment count |
| Reports.GroupByRoomTotal | controllers/reportController.js:126-129 | the lines' incomes add up to the income of all entries |
| Reports.Label | controllers/reportController.js:150 | the Spanish month name, a space, and the year in decimal |
| Reports.ReportValidation | controllers/reportController.js:34-43 | 400 for a year not an integer or below 1900, then for a month not an integer in 1..12; each defaults to the current one; every 200 is the report of a valid year and month |
| Reports.MonthlyReport | controllers/reportController.js:45-175 | the report of the requested year and month, with one room count per stored room and a total income that is the sum of its per-room lines |
| Reports.GetMonthlyReport | controllers/reportController.js:33-45 | answers 200, 400 or 500, and only the 200s carry a report; a query whose year (default the current one) is an integer from 1900 and whose month (default the current one) is an integer in 1..12 gets 200 with exactly that month's report, or 500 when the month lies past the largest JavaScript date |
| Reports.ReportPeriod | controllers/reportController.js:146-154 | the period is the month's range, its length and its label |
| Reports.ReportOccupancy | controllers/reportController.js:48-98 | available nights are `rooms × daysInMonth`; booked nights are the sum of each counted reservation's nights inside the month, between 0 and `daysInMonth` per reservation; the rate is `Rate(booked, available)`, so `rate × available = booked × 100`, 0 without rooms and never negative |
| Reports.ReportCancellations | controllers/reportController.js:131-144 | the month's reservations and its cancelled ones are counted, the latter at most the former; the rate is `Rate(cancelled, total)`, so `rate × total = cancelled × 100`, lies in [0, 100] and is 0 for a month without any |
| Reports.ReportIncomeTotal | controllers/reportController.js:100-129 | the lines are ascending by room and their incomes sum to the total, which is the sum of the amounts of the month's payments that still have a reservation, each counted once |
| Reports.ReportIncomeByRoom | controllers/reportController.js:115-167 | a line for each room paid in the month, with its total and number of payments |
| Guests.FindByEmail | controllers/guestController.js:20 | the guest with the normalised e-mail, none only when no guest has it |
| Guests.FindGuest | controllers/guestController.js:103 | `findById`: the guest with the identifier, none only when none has it |
| Guests.CreateResponses | controllers/guestController.js:9-40 | 400 exactly when a required field is missing or empty, then 409 exactly when a guest has the e-mail, then 500 when a validator rejects; only 201 writes |
| Guests.CreateAppends | controllers/guestController.js:25-35 | a 201 appends exactly the returned guest, valid under the schema, with the next identifier, the normalised e-mail and the given names, phone, document number and notes trimmed |
| Guests.CreateKeepsGuestsValid | controllers/guestController.js:20-33 | identifiers and e-mails stay unique |
| Guests.SortField | controllers/guestController.js:74-75 | the requested field when whitelisted, `createdAt` otherwise |
| Guests.GetGuests | controllers/guestController.js:42-98 | 500 exactly when a search is given that does not compile as a regular expression once trimmed; otherwise 200 with page 1 and 10 per page by default, the total over every match and a page of matching guests sorted on the whitelisted field, ascending only for `asc` |
| Guests.GetGuestById | controllers/guestController.js:100-114 | 200 with the guest exactly when one has the id, otherwise 404 |
| Guests.ApplyUpdate | controllers/guestController.js:130-133 | the normalised e-mail and the parsed document type when the body sets them; every field the body leaves out, the id and creation time kept |
| Guests.ApplyUpdateTrims | controllers/guestController.js:130-133 | names, phone, document number and notes the body sets are stored trimmed |
| Guests.ApplyUpdateKeepsSchema | controllers/guestController.js:130-133 | a valid update of a valid guest is valid |
| Guests.EmptyEmailInvalid | controllers/guestController.js:121-133 | an empty e-mail, which skips the uniqueness check, never passes the validator |
| Guests.FindOtherByEmail | controllers/guestController.js:122 | a guest other than `id` with the normalised e-mail, none only when there is none |
| Guests.Update | controllers/guestController.js:116-144 | answers 200, 404, 409 or 500; anything but 200 writes nothing, and no guest is added or removed |
| Guests.UpdateResponses | controllers/guestController.js:116-144 | 409 exactly when another guest has the e-mail (keeping one's own is allowed), 500 for an invalid body, 404 for an unknown id, else 200 with the guest replaced in place and nothing else changed |
| Guests.UpdateKeepsGuestsValid | controllers/guestController.js:121-133 | identifiers and e-mails stay unique |
| Guests.UpdateKeepsSchema | controllers/guestController.js:130-133 | every guest stays valid under the schema |
| Guests.Delete | controllers/guestController.js:146-160 | answers 200 or 404; 404 writes nothing and 200 removes one guest |
| Guests.DeleteResponses | controllers/guestController.js:146-160 | 404 exactly for an unknown id, nothing removed; otherwise 200 with one guest fewer |
| Guests.DeleteRemovesExactly | controllers/guestController.js:149-153 | the guests afterwards are exactly the others, in order |
| Guests.DeleteKeepsGuestsValid | controllers/guestController.js:149 | identifiers and e-mails stay unique |
| Guests.CreateGuest | controllers/guestController.js:9-40 | the store after `createGuest` is the registration's outcome; other collections unchanged, store valid |
| Guests.UpdateGuest | controllers/guestController.js:116-144 | the store after `updateGuest` is the update's outcome; store valid |
| Guests.DeleteGuest | controllers/guestController.js:146-160 | the store after `deleteGuest` is the deletion's outcome; store valid |
| Rooms.FindRoom | controllers/roomController.js:15 | `findById`: the room with the identifier, none only when none has it |
| Rooms.NumberTaken | models/Room.js:5 | true exactly when a room other than the excepted one has the number |
| Rooms.GetAllRooms | controllers/roomController.js:3-10 | 200 with a permutation of the rooms, ascending by number |
| Rooms.AllRoomsStrictlyByNumber | controllers/roomController.js:5 | with unique numbers the listing is strictly increasing |
| Rooms.GetRoomById | controllers/roomController.js:12-25 | 200 with the room exactly when one has the id, otherwise 404 "Habitación no encontrada" |
| Rooms.AmenitiesList | controllers/roomController.js:71-79 | the array as given, or the comma pieces trimmed; nothing for an absent or empty parameter |
| Rooms.AmenitiesFromJoinedText | controllers/roomController.js:72-74 | a comma-joined parameter asks for exactly its pieces, trimmed |
| Rooms.RoomSortField | controllers/roomController.js:81-83 | the requested field when whitelisted, `pricePerNight` otherwise |
| Rooms.SearchRooms | controllers/roomController.js:27-91 | 500 for a bound that is not a number; otherwise count equals the results, which are the matching rooms sorted on the field, descending only for `desc` |
| Rooms.SearchFindsExactlyMatches | controllers/roomController.js:41-85 | a room is a result exactly when it is in the store and matches type, availability (`== "true"`), both capacity and price bounds and every amenity |
| Rooms.ApplyRoomUpdate | controllers/roomController.js:95-98 | each field the body sets, the description trimmed; the rest and the id kept |
| Rooms.ApplyRoomUpdateKeepsSchema | controllers/roomController.js:95-98 | a valid update of a valid room is valid |
| Rooms.Update | controllers/roomController.js:93-104 | answers 200, 404 or 500; anything but 200 writes nothing, and no room is added or removed |
| Rooms.UpdateResponses | controllers/roomController.js:93-104 | 500 for an invalid body, then 404 "Room not found", then 500 for a number another room has; only 200 writes, replacing that room |
| Rooms.UpdateKeepsRoomsValid | controllers/roomController.js:95-99 | identifiers and numbers stay unique, every room valid |
| Rooms.SetAvailability | controllers/roomController.js:106-130 | answers 200, 400 or 404; anything but 200 writes nothing, and no room is added or removed |
| Rooms.SetAvailabilityResponses | controllers/roomController.js:106-130 | 400 for a non-boolean, 404 for an unknown id, both writing nothing; 200 changes only that room's `isAvailable` |
| Rooms.SetAvailabilityKeepsRoomsValid | controllers/roomController.js:116-120 | identifiers and numbers stay unique, every room valid |
| Rooms.CreateResponses | controllers/roomController.js:132-140 | 201 exactly for an acceptable body with a free number, appending the built room under the next id; 400 and nothing written otherwise |
| Rooms.CreateKeepsRoomsValid | controllers/roomController.js:134-135 | identifiers and numbers stay unique, every room valid |
| Rooms.Delete | controllers/roomController.js:142-157 | answers 200 or 404; 404 writes nothing and 200 removes one room |
| Rooms.DeleteRemovesExactly | controllers/roomController.js:142-157 | 404 for an unknown id; otherwise 200 with the removed room and exactly the other rooms, in order |
| Rooms.CreateRoom | controllers/roomController.js:132-140 | the store after `createRoom` is the creation's outcome; store valid |
| Rooms.UpdateRoom | controllers/roomController.js:93-104 | the store after `updateRoom` is the update's outcome; store valid |
| Rooms.UpdateRoomAvailability | controllers/roomController.js:106-130 | the store after the switch is its outcome; store valid |
| Rooms.DeleteRoom | controllers/roomController.js:142-157 | the store after `deleteRoom` is the deletion's outcome; store valid |
| AuthMiddleware.ExtractToken | middlewares/authMiddleware.js:4-12 | none without a header or without the exact prefix `Bearer `; a token is non-empty, has no space, and is what follows the prefix up to a space |
| AuthMiddleware.ExtractFirstWord | middlewares/authMiddleware.js:10-11 | `Bearer t` and `Bearer t x` both give `t` |
| AuthMiddleware.ExtractEmptyPiece | middlewares/authMiddleware.js:10-11 | `Bearer ` and `Bearer  x` give no token |
| AuthMiddleware.FirstSet | middlewares/authMiddleware.js:25 | `statusCode || status || 401` with missing and 0 both falsy |
| AuthMiddleware.Authenticate | middlewares/authMiddleware.js:14-28 | 401 "No autenticado" without a token; a request let through always carries a user; a rejection always has a message |
| AuthMiddleware.AuthenticateCases | middlewares/authMiddleware.js:14-28 | proceeds exactly for a token that verifies, with its payload as the user; no token is 401 "No autenticado" |
| AuthMiddleware.AuthenticatePropagatesStatus | middlewares/authMiddleware.js:24-27 | a verifier error keeps its `statusCode` when set and non-zero, else its `status` when set and non-zero, else 401, and its message unless empty |
| AuthMiddleware.OptionallyAuthenticate | middlewares/authMiddleware.js:30-43 | without a token the request proceeds anonymously; the only rejection is 401 "Autenticación inválida" |
| AuthMiddleware.OptionalCases | middlewares/authMiddleware.js:30-43 | no token proceeds anonymously; rejects exactly a token that fails, always with 401 "Autenticación inválida" |
| AuthMiddleware.GuardsAgreeWithToken | middlewares/authMiddleware.js:14-43 | with a token the two guards let the same requests through with the same user |
| AuthService.SanitizeUser | services/authService.js:7-11 | the public view keeps id, names, e-mail and role |
| AuthService.SanitizeForgetsOnlyHash | services/authService.js:7-11 | two users have the same public view exactly when they differ at most in `passwordHash` |
| AuthService.FindUserByEmail | services/authService.js:18 | the user with the e-mail, none only when none has it |
| AuthService.FindUserById | services/authService.js:56 | the user with the id, none for a missing id or when none has it |
| AuthService.RegisterResponses | services/authService.js:15-35 | 409 exactly when the normalised e-mail is registered, writing nothing; 201 with the new user's public view and token |
| AuthService.RegisterSuccess | services/authService.js:23-34 | with every field and a free e-mail: 201, the registered user appended, the counter advanced |
| AuthService.RegisterCreated | services/authService.js:15-35 | a 201 happens only with every field given and the e-mail free, and appends exactly the registered user |
| AuthService.RegisteredFields | services/authService.js:25-30 | the stored user has the fresh id, trimmed names, the normalised e-mail and the password hash |
| AuthService.RegisterKeepsUsersValid | services/authService.js:18-30 | identifiers and e-mails stay unique among users |
| AuthService.LoginResponses | services/authService.js:37-53 | 200 exactly for a registered normalised e-mail whose hash matches, with that user and token; unknown e-mail and wrong password give the same 401 "Credenciales inválidas"; a missing e-mail, or a missing password for a registered e-mail (where `bcrypt.compare` throws), is a 500 |
| AuthService.LoginFindsTheOwner | services/authService.js:40 | with unique e-mails the user found is the only one with that e-mail |
| AuthService.LoginSucceedsExactly | services/authService.js:37-53 | over a valid registry, login succeeds exactly when some user has the e-mail and a matching hash |
| AuthService.RegisterThenLogin | services/authService.js:15-53 | after a registration, a login with the same password and an e-mail that normalises alike succeeds as the new user |
| AuthService.LoginIgnoresEmailVariant | services/authService.js:38-40 | the login e-mail may add surrounding whitespace and upper case |
| AuthService.GetProfile | services/authService.js:55-62 | 200 with the public view of the token's user, otherwise 404 "Usuario no encontrado" |
| AuthService.RegisterThenProfile | services/authService.js:25-61 | the profile of a freshly registered user is the view the registration returned |
| AuthService.RegisterUser | services/authService.js:15-35 | the store after `registerUser` is the registration's outcome; other collections unchanged, store valid |
| AuthValidator.CheckLength | validators/authValidator.js:5-22 | missing is "Required"; otherwise accepted exactly when the (trimmed) length lies in the bounds, with the (trimmed) value |
| AuthValidator.CheckEmail | validators/authValidator.js:4 | accepted exactly when the trimmed, lower-cased e-mail passes the format check, and then that e-mail |
| AuthValidator.PasswordRule | validators/authValidator.js:5-8 | a password is accepted exactly when it has 6 to 100 characters, with the short and long messages for each side |
| AuthValidator.ParseLogin | validators/authValidator.js:26-28 | a rejected body always reports at least one issue, and a missing e-mail is reported as required |
| AuthValidator.ParseRegister | validators/authValidator.js:11-24 | a rejected body always reports at least one issue, and a valid registration has valid credentials |
| AuthValidator.LoginAccepts | validators/authValidator.js:26-28 | valid exactly when the normalised e-mail passes and the password has 6 to 100 characters; carries both; invalid bodies carry an issue |
| AuthValidator.RegisterAccepts | validators/authValidator.js:11-24 | valid exactly when the credentials are and both names have 2 to 50 characters once trimmed; carries the credentials and trimmed names |
| AuthValidator.RegisterIssuesInFieldOrder | validators/authValidator.js:11-24 | the issues are the credentials' issues, then the first name's, then the last name's |
| AuthValidator.AcceptedValuesAreNormal | validators/authValidator.js:4-22 | the accepted e-mail is already normalised and the names already trimmed |
| AuthValidator.EmailCheckIgnoresVariant | validators/authValidator.js:4 | whitespace around the e-mail and upper case do not change the answer |

## Left out

- Express wiring, the routes, CORS, environment loading and the server start-up are not part of this model. So are `validateRequest` and the error handler, beyond the statuses they produce. The routes never attach the request schemas to the authentication endpoints, so `AuthValidator` describes schemas the running API does not apply.
- `getAllRooms` of the reservations controller is a plain listing of every room with no rule of its own. `getRoomById` and `getAllRooms` of the room controller stand for it.
- MongoDB internals are modelled only through their effect on the answers. The schema setters, defaults and validators are modelled, including the update validators that `runValidators` runs in `updateGuest` and `updateRoom`. Query casting is modelled where it changes an answer: in `listPayments` the aggregation's `$match` is not cast (`Payments.ListPayments`). `populate`, the execution of the aggregation pipelines beyond their arithmetic, and indexes other than the unique ones are not modelled. A cast failure of a malformed identifier is not modelled either; identifiers are natural numbers, so every lookup is well formed.
- The order among documents with equal sort keys is left unspecified by the store. `Query.Sort` keeps them in store order, and results are otherwise given only up to that order.
- `Promise.all`: the parallel queries are sequential reads of one store state.
- Floating point is not modelled: money is an integer, and rates are exact reals without `toFixed(2)` rounding. `Number(value)` on query strings is not modelled: the pagination and report parameters arrive already converted, with `None` for NaN; `Reports.ParseInteger` passes that result through. Very large years, past what a JavaScript `Date` holds, answer 500 rather than failing in `toISOString`.
- Date strings, time zones and ISO formatting are not modelled. Dates arrive as milliseconds or as invalid. Today's local midnight for `getAvailableRooms` and the current time are parameters. `$dateDiff` counts UTC midnights between the two instants.
- The guest search's regular expression is a pair of parameters, since its syntax and semantics belong to the JavaScript engine: `regexCompiles` says whether `new RegExp` accepts the trimmed pattern (it throws otherwise, and the handler answers 500), and `regexTest` says whether it matches a field. The request schema's e-mail check `isEmail` (zod's own pattern) is a parameter too.
- bcrypt is not modelled: the salted hash of a registration's password is a parameter, and so is `compare`. `AuthService.RegisterThenLogin` assumes `compare` accepts the stored hash for its password.
- JWT signing and verification are not modelled (the JWT helper file is not part of this model). A token is modelled as its payload (user id and role), and the middleware's verifier is a parameter.
- The user schema file is not part of this model. The default role is a parameter, and `User.create` is assumed to succeed once the e-mail is free.
- Non-string values in string fields of request bodies are not modelled, except where a handler tests `typeof`: the payment amount and method, and the availability flag. Errors the runtime raises on absent fields (a `TypeError` in `registerUser`, a cast or validation error in `updateRoom`) are the 500 answers `Crash` and `Failure`, without the runtime's message text.
- `String.prototype.toLowerCase` and `length` are modelled on characters with ASCII case mapping. Unicode case mapping and UTF-16 code-unit lengths are not modelled.
- Console logging is not modelled.
- Reports.ReportOccupancy: does not bound the occupancy rate by 100, because overlapping active reservations of one room are not excluded by the report; only non-negativity is proved.
- Payments.Register, Payments.ApplyPayment, Reservations.SetStatus: `reservation.save()` (controllers/paymentController.js:92, controllers/reservationsController.js:79) is taken to succeed. The save runs the reservation schema's validators. So for a reservation without `totalPrice` or `numberOfGuests`, which is every reservation `createReservation` stores, the code answers 500. In `registerPayment` that 500 comes after `Payment.create` has stored the payment, so the reservation's `totalPaid` falls behind its payments; the model does not show that state. Without a price the code computes the balance `Math.max(undefined - totalPaid, 0)`, which is NaN, and the Number cast rejects it. The model keeps `balanceDue` absent instead.
- Query.Filter: its own contract states membership in both directions and the length bound only. How often each match is kept is stated beside it by `Query.FilterCounts`, because on `Filter` itself the multiset facts make every proof over a filter far costlier.
