/** Who may cancel a reservation, and when. */
module ReservationPolicy {
  import opened ReservationStatusEnum
  import opened ReservationModel

  /** The `cancel` ability: the reservation is the caller's, it is still
      ACTIVE, and its start date lies strictly after `today`. The decision
      reads only its three arguments. */
  predicate CanCancel(caller: nat, r: Reservation, today: Day)
    ensures CanCancel(caller, r, today) <==>
              CanCancelAsWritten(caller, r, today) && r.startDate != today
  {
    && r.userId == caller
    && r.status == StatusActive
    && r.startDate > today
  }

  /** A reservation that is already CANCELLED can never be cancelled again,
      by anyone, on any day. */
  lemma CancelledIsFinal(caller: nat, r: Reservation, today: Day)
    requires r.status == StatusCancelled
    ensures !CanCancel(caller, r, today)
  {
  }

  /** Only the reservation's own user may cancel it. */
  lemma OnlyOwnerMayCancel(caller: nat, r: Reservation, today: Day)
    requires r.userId != caller
    ensures !CanCancel(caller, r, today)
  {
  }

  /** The cancellation window only closes as time passes: allowed on a
      later day means allowed on every earlier one. */
  lemma CancelWindowCloses(caller: nat, r: Reservation, today: Day, later: Day)
    requires today <= later
    requires CanCancel(caller, r, later)
    ensures CanCancel(caller, r, today)
  {
  }

  /** Once its start day has come, a reservation can no longer be
      cancelled. */
  lemma NoCancelOnceStarted(caller: nat, r: Reservation, today: Day)
    requires r.startDate <= today
    ensures !CanCancel(caller, r, today)
  {
  }

  // ---------------------------------------------------------------------
  // The comparison as written

  /** Byte-wise string comparison as PHP applies it to two non-numeric
      strings: the first differing character decides, and a proper prefix
      is smaller than the longer string. */
  function StrCmp(a: string, b: string): (c: int)
    ensures c == -1 || c == 0 || c == 1
    ensures c == 0 <==> a == b
  {
    if a == [] && b == [] then 0
    else if a == [] then -1
    else if b == [] then 1
    else if a[0] < b[0] then -1
    else if a[0] > b[0] then 1
    else StrCmp(a[1..], b[1..])
  }

  /** A string followed by anything more compares greater than the string
      alone. */
  lemma {:induction false} ExtensionIsGreater(s: string, suffix: string)
    requires suffix != []
    ensures StrCmp(s + suffix, s) == 1
  {
    if s != [] {
      assert (s + suffix)[1..] == s[1..] + suffix;
      ExtensionIsGreater(s[1..], suffix);
    }
  }

  /** The time part a date-cast start date carries when it is turned into a
      string for comparison. */
  const MidnightSuffix: string := " 00:00:00"

  /** On its own start day, the stored start date ("YYYY-MM-DD 00:00:00")
      compares greater than today's date string ("YYYY-MM-DD"), so the
      date test passes: as written, the test is "start date on or after
      today". */
  lemma StartDayComparesGreater(dateString: string)
    ensures StrCmp(dateString + MidnightSuffix, dateString) == 1
  {
    ExtensionIsGreater(dateString, MidnightSuffix);
  }

  /** The ability as the comparison actually decides it. */
  predicate CanCancelAsWritten(caller: nat, r: Reservation, today: Day)
  {
    && r.userId == caller
    && r.status == StatusActive
    && r.startDate >= today
  }

  /** The two differ exactly on the start day: an ACTIVE reservation can
      be cancelled by its user on the day it begins as written, but not
      under the stated intent. */
  lemma CancelOnStartDay(caller: nat, r: Reservation)
    requires r.userId == caller && r.status == StatusActive
    ensures CanCancelAsWritten(caller, r, r.startDate)
    ensures !CanCancel(caller, r, r.startDate)
  {
  }

  /** Apart from the start day the two agree. */
  lemma AsWrittenAgreesOtherwise(caller: nat, r: Reservation, today: Day)
    requires today != r.startDate
    ensures CanCancelAsWritten(caller, r, today) == CanCancel(caller, r, today)
  {
  }
}
