/** The request parameters shared by the user and host reservation lists:
    their validation and the narrowing each one applies. */
module ReservationQueries {
  import opened Common
  import opened ReservationStatusEnum
  import opened ReservationModel

  /** The query string of a reservation list. `userId` is read only by the
      host list. */
  datatype ReservationQuery = ReservationQuery(
    officeId: Option<nat>,
    userId: Option<nat>,
    status: Option<int>,
    fromDate: Option<Day>,
    toDate: Option<Day>)

  datatype QueryField = StatusField | FromDateField | ToDateField

  /** The fields that fail validation: a status code outside the enum's
      values, one date without the other, or a `to_date` not after
      `from_date`. */
  function QueryErrors(q: ReservationQuery): (errs: set<QueryField>)
    ensures errs == {} <==>
              && (q.status.Some? ==> TryFrom(q.status.value).Some?)
              && q.fromDate.Some? == q.toDate.Some?
              && (q.fromDate.Some? ==> q.fromDate.value < q.toDate.value)
  {
    (if q.status.Some? && TryFrom(q.status.value).None? then {StatusField} else {})
    + (if q.toDate.Some? && q.fromDate.None? then {FromDateField} else {})
    + (if q.fromDate.Some? && q.toDate.None? then {ToDateField} else {})
    + (if q.fromDate.Some? && q.toDate.Some? && q.toDate.value <= q.fromDate.value then {ToDateField} else {})
  }

  /** The narrowing both lists apply after their own ownership clause: by
      office when `office_id` is given, by status when `status` is given,
      and by `betweenDates` only when both dates are given. */
  predicate Narrowed(r: Reservation, q: ReservationQuery)
    // a query without filters (or with the falsy office id 0) narrows nothing
    ensures !Given(q.officeId) && q.status.None? && q.fromDate.None? ==> Narrowed(r, q)
    // with a valid date window and a well-formed row, the window test is overlap
    ensures q.fromDate.Some? && q.toDate.Some? && q.fromDate.value <= q.toDate.value &&
            r.startDate <= r.endDate && Narrowed(r, q) ==>
              r.startDate <= q.toDate.value && q.fromDate.value <= r.endDate
    ensures q.status.Some? && Narrowed(r, q) ==> TryFrom(q.status.value) == Some(r.status)
  {
    && (Given(q.officeId) ==> r.officeId == q.officeId.value)
    && (q.status.Some? ==> Status(r.status) == q.status.value)
    && (q.fromDate.Some? && q.toDate.Some? ==>
          BetweenDates(r.startDate, r.endDate, q.fromDate.value, q.toDate.value))
  }
}
