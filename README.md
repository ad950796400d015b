# Ergodnc office booking core, in Dafny

Ergodnc is a coworking marketplace. Hosts publish offices, which stay
PENDING until approved. Visitors book an approved, visible office for a
range of days, at a price per day less a monthly discount for stays of 28
days or more, and may cancel a booking that has not started yet. Both sides
list reservations with optional filters. Hosts manage the photos of their
offices.

This project models that core:

- **Enums:** the two status enums, with their integer codes.
- **Reservation record:** the reservation row and its `betweenDates` /
  `activeBetween` query scopes.
- **Cancellation:** who may cancel a reservation, and when.
- **Visitor side:** `index` lists reservations, `create` books an office and
  `cancel` cancels a booking.
- **Host side:** `index` lists the reservations on the host's offices.
- **Offices:** `index`, `show` and `create`.
- **Office images:** `store` and `destroy`.

The core is modelled as follows:

- **Database tables** are sequences of records.
- **Tables that the controllers change** are class fields, updated by
  methods whose `ensures` give the new state in full:
  - `ReservationStore`, changed by `Book` and `Cancel`;
  - `OfficeTable`, changed by `Create`;
  - `ImageTable`, changed by `Store` and `Destroy`.
- **Query builders** become pure functions:
  - `UserIndex` and `HostIndex` list reservations;
  - `OfficeIndex` and `Show` list offices.
- **Calendar dates** are day numbers.
- **Request instants** (a date plus a time of day) are `Moment`s.
- **Validation failures** come back as the set of failing fields.
- **Controller refusals** are error constructors.

Modules:

| module | file |
|---|---|
| `Common` | Option, Result and Outcome; PHP truthiness of an optional id; a generic filter |
| `ReservationStatusEnum`, `OfficeApprovalStatusEnum` | the two backed enums |
| `ReservationModel` | the reservation record, its scopes, the no-overlap invariant |
| `OfficeModel` | the office and image records, lookup by id |
| `ReservationPolicy` | the cancel ability |
| `ReservationQueries` | query-string validation and narrowing shared by both reservation lists |
| `UserReservations` | day count, price, booking, cancelling, the visitor's list |
| `HostReservations` | the host's list |
| `Offices` | active-reservation counts, office list, single office, office creation |
| `OfficeImages` | image upload and deletion |

The main invariant is kept by `ReservationStore.Valid()`: no two ACTIVE
reservations of one office share a calendar day. It holds because:

- `Book` appends only when `activeBetween` finds nothing (`AppendKeepsNoOverlap`);
- `Cancel` only turns a reservation CANCELLED (`CancelKeepsNoOverlap`).

The invariant is proved for the model's conflict query, which compares
calendar days. The source's query compares the raw request values; see
"## Left out" under `ReservationStore.Book`.

## Model

| member | source | states |
|---|---|---|
| ReservationStatusEnum.Cases | app/Enums/ReservationStatus.php:4-6 | exactly two cases, and every status is one of them |
| ReservationStatusEnum.Status | app/Enums/ReservationStatus.php:8-15 | `status()` is the backing value: 1 for ACTIVE, 2 for CANCELLED, nothing else |
| ReservationStatusEnum.TryFrom | app/Enums/ReservationStatus.php:4-6 | a code maps to a case iff it is 1 or 2, and then to the case whose value it is |
| ReservationStatusEnum.StatusRoundTrip | app/Enums/ReservationStatus.php:4-15 | decoding the value of a case gives the case back |
| ReservationStatusEnum.StatusInjective | app/Enums/ReservationStatus.php:8-15 | distinct cases have distinct values |
| OfficeApprovalStatusEnum.Cases | app/Enums/OfficeApprovalStatus.php:4-6 | exactly two cases, PENDING and APPROVED, and every status is one of them |
| OfficeApprovalStatusEnum.Status | app/Enums/OfficeApprovalStatus.php:8-15 | `status()` is 1 for PENDING and 2 for APPROVED |
| OfficeApprovalStatusEnum.TryFrom | app/Enums/OfficeApprovalStatus.php:4-6 | a code maps to a case iff it is 1 or 2, and then to the case whose value it is |
| OfficeApprovalStatusEnum.StatusRoundTrip | app/Enums/OfficeApprovalStatus.php:4-15 | decoding the value of a case gives the case back |
| OfficeApprovalStatusEnum.StatusInjective | app/Enums/OfficeApprovalStatus.php:8-15 | distinct cases have distinct values |
| ReservationModel.BetweenDates | app/Models/Reservation.php:36-46 | the three-clause scope equals plain interval overlap whenever both ranges are well formed |
| ReservationModel.BetweenDatesSymmetric | app/Models/Reservation.php:36-46 | for well-formed ranges, the reservation and the window can swap roles |
| ReservationModel.EnclosingRangeMatches | app/Models/Reservation.php:41-44 | a reservation starting before and ending after the window matches |
| ReservationModel.DisjointRangeDoesNotMatch | app/Models/Reservation.php:36-46 | a reservation wholly before or wholly after the window does not match |
| ReservationModel.ActiveBetween | app/Models/Reservation.php:48-52 | for well-formed ranges, a reservation matches iff it is ACTIVE and shares a day with the window |
| ReservationModel.HasConflict | app/Http/Controllers/UserReservationController.php:86 | for well-formed rows and window, some reservation of the office is ACTIVE and shares a day with the window |
| ReservationModel.CancelledNeverActiveBetween | app/Models/Reservation.php:48-52 | `activeBetween` never matches a CANCELLED reservation |
| ReservationModel.AppendKeepsNoOverlap | app/Http/Controllers/UserReservationController.php:85-104 | appending a range that `activeBetween` finds nothing against keeps ACTIVE reservations of each office pairwise disjoint |
| ReservationModel.CancelKeepsNoOverlap | app/Http/Controllers/UserReservationController.php:117 | cancelling a reservation keeps them disjoint |
| OfficeModel.FindOffice | app/Http/Controllers/UserReservationController.php:74 | `find` returns an office with that id, or nothing exactly when none has it |
| OfficeModel.FindOfficeUnique | app/Http/Controllers/UserReservationController.php:74 | under unique ids, `find` returns the one office with that id |
| ReservationPolicy.CanCancel | app/Policies/ReservationPolicy.php:22-28 | the owner, ACTIVE and strictly-future-start test; it is exactly the as-written test minus the start day |
| ReservationPolicy.CanCancelAsWritten | app/Policies/ReservationPolicy.php:22-28 | the owner and ACTIVE tests with the start date on or after today, which is what the string comparison of line 28 decides |
| ReservationPolicy.CancelledIsFinal | app/Policies/ReservationPolicy.php:26 | a CANCELLED reservation can never be cancelled |
| ReservationPolicy.OnlyOwnerMayCancel | app/Policies/ReservationPolicy.php:24 | nobody but its user may cancel a reservation |
| ReservationPolicy.CancelWindowCloses | app/Policies/ReservationPolicy.php:28 | cancellable on a day implies cancellable on every earlier day |
| ReservationPolicy.StrCmp | app/Policies/ReservationPolicy.php:28 | the string comparison gives -1, 0 or 1, and 0 exactly for equal strings |
| ReservationPolicy.ExtensionIsGreater | app/Policies/ReservationPolicy.php:28 | a string with a non-empty suffix compares greater than the string alone |
| ReservationPolicy.StartDayComparesGreater | app/Policies/ReservationPolicy.php:28 | a start date at midnight compares greater than the same date's date-only string |
| ReservationPolicy.CancelOnStartDay | app/Policies/ReservationPolicy.php:22-28 | as written, an own ACTIVE reservation is cancellable on its start day; under the stated intent it is not |
| ReservationPolicy.AsWrittenAgreesOtherwise | app/Policies/ReservationPolicy.php:22-28 | the written and the intended test agree on every other day |
| ReservationPolicy.NoCancelOnceStarted | app/Policies/ReservationPolicy.php:20-28 | no reservation can be cancelled on or after its start day |
| ReservationQueries.QueryErrors | app/Http/Controllers/UserReservationController.php:26-31 | no error iff the status is a known code, the two dates come together, and `to_date` is after `from_date` |
| ReservationQueries.Narrowed | app/Http/Controllers/UserReservationController.php:35-39 | a query without filters (or with the falsy office id 0) keeps every row; a status filter keeps rows whose status decodes from the code; with a valid window a well-formed kept row shares a day with it |
| UserReservations.Days | app/Http/Controllers/UserReservationController.php:77-78 | the count is end minus start plus one for ordered dates (and start minus end otherwise) |
| UserReservations.DayRange | app/Http/Controllers/UserReservationController.php:77-78 | the calendar days a range covers are exactly those between its ends |
| UserReservations.DaysCountsCalendarDays | app/Http/Controllers/UserReservationController.php:77-78 | the count equals the number of calendar days the booking covers |
| UserReservations.MidnightRangesSpanTwoDays | app/Http/Controllers/UserReservationController.php:62-83 | date-only requests that pass validation always cover at least two days |
| UserReservations.TruncToInt | app/Models/Reservation.php:18 | the integer cast keeps the whole part, rounding toward zero |
| UserReservations.Price | app/Http/Controllers/UserReservationController.php:90-94 | the whole part of days times the daily rate less the discount percentage (from 28 days, for a non-zero discount); with a discount of 0..100 percent it lies between 0 and the base |
| UserReservations.PriceRoundsReductionUp | app/Http/Controllers/UserReservationController.php:90-94 | with a discount of 1..100 percent, the price is the base less the reduction rounded up to a whole unit |
| UserReservations.CutBounded | app/Http/Controllers/UserReservationController.php:93 | a reduction of at most 100 percent is at most the whole base, so the discounted price stays non-negative |
| UserReservations.NoDiscountBelowMonth | app/Http/Controllers/UserReservationController.php:92 | under 28 days, or with no discount, the price is days times the daily rate |
| UserReservations.PriceExactWhenDivisible | app/Http/Controllers/UserReservationController.php:90-94 | from 28 days on, the price is the base less the discount percentage (exact when that is whole) |
| UserReservations.PriceExamples | tests/Feature/UserReservationControllerTest.php:132-151 | 40 days at 1000 with 10 percent off cost 36000; 2 and 27 days carry no discount; 28 days at 101 with 15 percent off come to 2403 |
| UserReservations.BookingErrors | app/Http/Controllers/UserReservationController.php:51-72 | no error iff the office is eligible, the start is after today's midnight and the start is before the end |
| UserReservations.Eligible | app/Http/Controllers/UserReservationController.php:54-61 | under unique ids: the office `find` returns exists, is not the caller's, is not hidden and is APPROVED |
| UserReservations.StartMustBeAfterTodaysMidnight | app/Http/Controllers/UserReservationController.php:66 | a start at or before today's midnight is refused; a start later today passes the date rule |
| UserReservations.ReservationStore.Book | app/Http/Controllers/UserReservationController.php:49-105 | checks in order (each refusal leaves the table unchanged): validation errors; fewer than two days gives "only one day"; an ACTIVE overlapping reservation of the office gives "during this time"; otherwise exactly one ACTIVE reservation with `Price(...)` and the next id is appended; the no-overlap invariant is kept |
| UserReservations.ReservationStore.Cancel | app/Http/Controllers/UserReservationController.php:113-120 | an unknown id gives not-found; the policy refusing gives forbidden with no change; otherwise only that reservation's status becomes CANCELLED |
| UserReservations.UserIndex | app/Http/Controllers/UserReservationController.php:24-44 | an invalid query gives its error fields; otherwise exactly the caller's reservations that pass the office, status and date filters, and each date-filtered row overlaps the window |
| UserReservations.SampleWindowListsFirstFour | tests/Feature/UserReservationControllerTest.php:42-76 | of the seven sample rows, the March 3 to April 4 window lists exactly the first four |
| UserReservations.SampleRowKept | tests/Feature/UserReservationControllerTest.php:46-59 | row by row: rows 1-4 meet the window, rows 5 and 6 miss it, row 7 belongs to another user |
| HostReservations.HostIndex | app/Http/Controllers/HostReservationController.php:13-35 | an invalid query gives its error fields; otherwise exactly the reservations on offices the caller owns that pass the office, visitor, status and date filters |
| HostReservations.OtherHostsReservationsHidden | app/Http/Controllers/HostReservationController.php:24 | a reservation on an office owned by someone else never reaches a host |
| Offices.ActiveCount | app/Http/Controllers/OfficeController.php:35-37 | the count is 0 iff the office has no ACTIVE reservation, and is at most the number of reservations |
| Offices.ActiveCountAppend | app/Http/Controllers/OfficeController.php:35-37 | a new reservation raises its office's count by one iff it is ACTIVE |
| Offices.ActiveCountCancel | app/Http/Controllers/OfficeController.php:47 | cancelling an ACTIVE reservation lowers its office's count by one |
| Offices.Listed | app/Http/Controllers/OfficeController.php:22-28 | without filters, exactly the APPROVED visible offices; the visitor filter is met by a reservation of any status, a cancelled one included |
| Offices.OfficeIndex | app/Http/Controllers/OfficeController.php:19-43 | exactly the APPROVED, visible offices that pass the host and visitor filters, each with its ACTIVE reservation count |
| Offices.OfficeIndexAscending | app/Http/Controllers/OfficeController.php:29-33 | without coordinates the list is in increasing id order |
| Offices.Show | app/Http/Controllers/OfficeController.php:45-51 | the office with that id with its ACTIVE count, or nothing iff no office has the id |
| Offices.OfficeInputErrors | app/Http/Controllers/OfficeController.php:55-66 | no error iff the price per day is at least 100, the discount is non-negative and, when tags are given, every tag exists |
| Offices.OfficeTable.Create | app/Http/Controllers/OfficeController.php:53-75 | invalid input gives its error fields with no change; otherwise one office is appended with the fields copied, PENDING, no featured image and the next id; with tags, its tags are the requested set and it is returned; without tags it stays appended with no tags and the request fails |
| Offices.OfficeTable.ValidOfficesAreKeyed | app/Http/Controllers/OfficeController.php:70 | the offices of a valid table have unique, increasing ids, as booking and the list require |
| Offices.NewOfficeNotListed | app/Http/Controllers/OfficeController.php:22 | a new (PENDING) office never appears in the public list |
| OfficeImages.ImageCount | app/Http/Controllers/OfficeImageController.php:42 | positive iff the office has an image, and at most the number of images |
| OfficeImages.ImageCountRemove | app/Http/Controllers/OfficeImageController.php:42-51 | removing an image lowers its office's count by exactly one and leaves other offices' counts alone |
| OfficeImages.ImageTable.Store | app/Http/Controllers/OfficeImageController.php:19-28 | exactly one image of the office is appended with the next id, and the office's image count rises by one |
| OfficeImages.ImageTable.Destroy | app/Http/Controllers/OfficeImageController.php:35-52 | refuses in order (each refusal leaves the table unchanged): no such id, not the office's image, the only image, the featured image; otherwise removes exactly that image and keeps the others, and the office is left with at least one image |
| OfficeImages.ImageTable.RemoveAt | app/Http/Controllers/OfficeImageController.php:51 | exactly the image at that position is removed; ids stay increasing |
| OfficeImages.RemoveAtKeepsOthers | app/Http/Controllers/OfficeImageController.php:51 | removal drops the image with that id and keeps every other one |

## Left out

- Authentication, e-mail verification and token abilities (the route
  middleware) are not modelled. The caller is an explicit id.
- The update ability guarding image routes is not modelled.
- Route model binding's 404 is the `NotFound` result of `Cancel` and
  `Destroy`, and `Show` returning `None`. Two routing facts are not
  modelled; the model follows the controller bodies as if they were routed
  without scoping:
  - routes/api.php declares no route to the reservation `cancel` action,
    although the controller's tests call one by name;
  - the image destroy route binds `{image:id}` under `{office}`, which
    Laravel scopes to the office's images, so an image of another office
    would likely be refused with a 404 before the "un belonged" guard of
    `destroy` runs. `ImageTable.Destroy` returns `NotBelonged` there, the
    controller's own answer.
- The per-office cache lock around booking is not modelled. `Book` runs as
  one atomic step, and concurrent bookings are not modelled.
- The notifications sent after a booking are not modelled.
- The Wi-Fi password's random generation and its encryption at rest are not
  modelled. The password is a parameter stored as given.
- Pagination, eager loading and the JSON resources are not modelled. The
  lists return every matching row, in table order for the reservation lists.
- The `nearestTo` ordering by distance from a latitude and longitude is not
  modelled. It is floating-point SQL. The office list is modelled only with
  the default order, oldest id first.
- Image upload validation (file type, size) and the writing and deleting of
  files on the public disk are not modelled. The stored path is a parameter.
- Images belong to offices through a polymorphic relation. The model gives
  each image its office's id directly.
- Office update and destroy, and the office validator they use, are not
  modelled. They lie outside this core.
- The tag controller is not part of this model.
- Soft deletes and timestamps are not modelled.
- Office fields outside the create request are not modelled. These include
  the second address line, and the default of `hidden` when the request
  omits it.
- `UserReservations.Price`: the source computes the discounted price as a
  PHP float. The model computes it exactly and keeps its whole part, as the
  record's integer cast does when the price is read back; double-precision
  rounding is not modelled. A database that rounds on insert into the
  integer `price` column may store 2404 where the model gives 2403.
- `ReservationStore.Book`: the source hands the raw request values to the
  `activeBetween` conflict query, and they may carry a time of day. A
  request starting at 09:00 on an existing booking's last day compares
  greater than that day's `end_date`, so the source's query may miss the
  clash, depending on the database. The model compares calendar days and
  refuses such a request. The no-overlap invariant is proved for the
  day-granular query only and may fail in the source for requests with a
  time of day.
- `BookingErrors`: requests may carry a time of day (`Moment`); only
  `today` is midnight. The parsing of date strings, and the `date` rule's
  rejection of unparseable ones, are not modelled.
- In the source, `monthly_discount` has no upper bound. `UserReservations.Price`
  bounds its result only for discounts up to 100 percent.
- In the source, the office approval enum has two cases, PENDING (1) and
  APPROVED (2). There is no REJECTED case, and the model follows the code.
- The booking rule "after today" accepts a start later today at any time
  after midnight. The code compares with today's midnight, and the model
  follows it (`StartMustBeAfterTodaysMidnight`).

## Findings

| source | as written | input that shows it | evidently intended | confidence | as-written member | corrected member |
|---|---|---|---|---|---|---|
| app/Policies/ReservationPolicy.php:28 | compares the date-cast `start_date` with the string `now()->toDateString()`. PHP compares `"Y-m-d 00:00:00"` with `"Y-m-d"` as strings, and the longer string is greater on the start day itself | an ACTIVE reservation of the caller whose start date is today: cancellation is allowed | the comments ask for a start date in the future, so a reservation starting today should not be cancellable | medium, not executed | ReservationPolicy.CancelOnStartDay | ReservationPolicy.CanCancel |
