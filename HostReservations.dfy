/** A host's view of the reservations made on the offices they own. */
module HostReservations {
  import opened Common
  import opened ReservationStatusEnum
  import opened ReservationModel
  import opened OfficeModel
  import opened ReservationQueries

  /** The reservation's office is owned by `host`. */
  predicate OwnedBy(offices: seq<Office>, officeId: nat, host: nat)
  {
    exists o :: o in offices && o.id == officeId && o.userId == host
  }

  /** The reservations of the caller's offices, narrowed by office, visitor,
      status and date window as the query asks. */
  function HostIndex(rs: seq<Reservation>, offices: seq<Office>, host: nat, q: ReservationQuery)
    : (r: Result<seq<Reservation>, set<QueryField>>)
    ensures r.Err? <==> QueryErrors(q) != {}
    ensures r.Err? ==> r.error == QueryErrors(q)
    ensures r.Ok? ==> forall x :: x in r.value ==> x in rs && OwnedBy(offices, x.officeId, host)
    ensures r.Ok? && Given(q.officeId) ==> forall x :: x in r.value ==> x.officeId == q.officeId.value
    ensures r.Ok? && Given(q.userId) ==> forall x :: x in r.value ==> x.userId == q.userId.value
    ensures r.Ok? && q.status.Some? ==> forall x :: x in r.value ==> Status(x.status) == q.status.value
    ensures r.Ok? && q.fromDate.Some? ==>
              forall x :: x in r.value && x.startDate <= x.endDate ==>
                x.startDate <= q.toDate.value && q.fromDate.value <= x.endDate
    ensures r.Ok? ==>
              forall x :: x in rs && OwnedBy(offices, x.officeId, host) &&
                          (Given(q.userId) ==> x.userId == q.userId.value) && Narrowed(x, q)
                ==> x in r.value
  {
    if QueryErrors(q) != {} then Err(QueryErrors(q))
    else Ok(Filter(rs, (x: Reservation) =>
                         && OwnedBy(offices, x.officeId, host)
                         && (Given(q.userId) ==> x.userId == q.userId.value)
                         && Narrowed(x, q)))
  }

  /** Reservations of offices someone else owns never reach the host. */
  lemma OtherHostsReservationsHidden(rs: seq<Reservation>, offices: seq<Office>, host: nat,
                                     q: ReservationQuery, x: Reservation)
    requires UniqueIds(offices)
    requires exists o :: o in offices && o.id == x.officeId && o.userId != host
    requires HostIndex(rs, offices, host, q).Ok?
    ensures x !in HostIndex(rs, offices, host, q).value
  {
  }
}
