/** The reservation record and its two query scopes. */
module ReservationModel {
  import opened ReservationStatusEnum

  /** A calendar date, as a day number. */
  type Day = int

  /** One row of the reservations table, with its casts: integer ids and
      price, the status enum, date-only start and end, and the Wi-Fi
      password, kept as an opaque string. */
  datatype Reservation = Reservation(
    id: nat,
    userId: nat,
    officeId: nat,
    price: int,
    status: ReservationStatus,
    startDate: Day,
    endDate: Day,
    wifiPassword: string)

  /** `betweenDates(from, to)`: the start lies in the closed window, or the
      end does, or the reservation starts before the window and ends after
      it. For well-formed ranges this is exactly the interval-overlap test. */
  predicate BetweenDates(startDate: Day, endDate: Day, from: Day, to: Day)
    ensures startDate <= endDate && from <= to ==>
              (BetweenDates(startDate, endDate, from, to) <==> startDate <= to && from <= endDate)
  {
    || from <= startDate <= to
    || from <= endDate <= to
    || (startDate < from && endDate > to)
  }

  /** `activeBetween(from, to)`: an ACTIVE reservation matching `betweenDates`. */
  predicate ActiveBetween(r: Reservation, from: Day, to: Day)
    ensures r.startDate <= r.endDate && from <= to ==>
              (ActiveBetween(r, from, to) <==>
                 r.status == StatusActive && r.startDate <= to && from <= r.endDate)
  {
    r.status == StatusActive && BetweenDates(r.startDate, r.endDate, from, to)
  }

  /** Two reservations share at least one calendar day. */
  predicate Overlap(a: Reservation, b: Reservation)
  {
    a.startDate <= b.endDate && b.startDate <= a.endDate
  }

  /** No two distinct ACTIVE reservations of one office share a day. */
  ghost predicate NoOverlap(rs: seq<Reservation>)
  {
    forall i, j ::
      0 <= i < |rs| && 0 <= j < |rs| && i != j &&
      rs[i].officeId == rs[j].officeId &&
      rs[i].status == StatusActive && rs[j].status == StatusActive
      ==> !Overlap(rs[i], rs[j])
  }

  /** Some ACTIVE reservation of `officeId` matches `betweenDates(from, to)`
      (the `activeBetween(...)->exists()` query on the office's reservations). */
  predicate HasConflict(rs: seq<Reservation>, officeId: nat, from: Day, to: Day)
    ensures from <= to && (forall i :: 0 <= i < |rs| ==> rs[i].startDate <= rs[i].endDate) ==>
              (HasConflict(rs, officeId, from, to) <==>
                 exists r :: r in rs && r.officeId == officeId && r.status == StatusActive &&
                             r.startDate <= to && from <= r.endDate)
  {
    exists i :: 0 <= i < |rs| && rs[i].officeId == officeId && ActiveBetween(rs[i], from, to)
  }

  /** With well-formed ranges the match does not depend on which range is
      the reservation and which the query window. */
  lemma BetweenDatesSymmetric(s1: Day, e1: Day, s2: Day, e2: Day)
    requires s1 <= e1 && s2 <= e2
    ensures BetweenDates(s1, e1, s2, e2) == BetweenDates(s2, e2, s1, e1)
  {
  }

  /** A reservation that begins before the window and ends after it matches. */
  lemma EnclosingRangeMatches(startDate: Day, endDate: Day, from: Day, to: Day)
    requires startDate < from && to < endDate
    ensures BetweenDates(startDate, endDate, from, to)
  {
  }

  /** A reservation that ends before the window, or starts after it, does not. */
  lemma DisjointRangeDoesNotMatch(startDate: Day, endDate: Day, from: Day, to: Day)
    requires startDate <= endDate && from <= to
    requires endDate < from || to < startDate
    ensures !BetweenDates(startDate, endDate, from, to)
  {
  }

  /** A cancelled reservation never matches `activeBetween`. */
  lemma CancelledNeverActiveBetween(r: Reservation, from: Day, to: Day)
    requires r.status == StatusCancelled
    ensures !ActiveBetween(r, from, to)
  {
  }

  /** If the candidate range matches no ACTIVE reservation of its office,
      appending it as a new ACTIVE reservation keeps every office free of
      overlapping ACTIVE reservations. */
  lemma {:induction false} AppendKeepsNoOverlap(rs: seq<Reservation>, n: Reservation)
    requires NoOverlap(rs)
    requires forall i :: 0 <= i < |rs| ==> rs[i].startDate <= rs[i].endDate
    requires n.startDate <= n.endDate
    requires !HasConflict(rs, n.officeId, n.startDate, n.endDate)
    ensures NoOverlap(rs + [n])
  {
    var rs' := rs + [n];
    forall i, j |
      0 <= i < |rs'| && 0 <= j < |rs'| && i != j &&
      rs'[i].officeId == rs'[j].officeId &&
      rs'[i].status == StatusActive && rs'[j].status == StatusActive
      ensures !Overlap(rs'[i], rs'[j])
    {
      if i == |rs| {
        assert !ActiveBetween(rs[j], n.startDate, n.endDate);
      } else if j == |rs| {
        assert !ActiveBetween(rs[i], n.startDate, n.endDate);
      } else {
        assert rs'[i] == rs[i] && rs'[j] == rs[j];
      }
    }
  }

  /** Setting one reservation's status to CANCELLED cannot create an overlap. */
  lemma CancelKeepsNoOverlap(rs: seq<Reservation>, k: nat)
    requires NoOverlap(rs)
    requires k < |rs|
    ensures NoOverlap(rs[k := rs[k].(status := StatusCancelled)])
  {
  }
}
