/** The integer-backed enum of a reservation's status. */
module ReservationStatusEnum {
  import opened Common

  datatype ReservationStatus = StatusActive | StatusCancelled

  /** The integer each case is declared with (the enum's backing value). */
  function Value(s: ReservationStatus): int
  {
    match s
    case StatusActive => 1
    case StatusCancelled => 2
  }

  /** The cases in declaration order (`ReservationStatus::cases()`). */
  function Cases(): (cs: seq<ReservationStatus>)
    ensures |cs| == 2
    ensures forall s: ReservationStatus :: s in cs
  {
    var cs := [StatusActive, StatusCancelled];
    forall s: ReservationStatus ensures s in cs {
      if s.StatusActive? { assert s == cs[0]; } else { assert s == cs[1]; }
    }
    cs
  }

  /** `status()`: the code the `match` in the enum returns. */
  function Status(s: ReservationStatus): (code: int)
    ensures code == Value(s)
    ensures code == 1 || code == 2
  {
    match s
    case StatusActive => 1
    case StatusCancelled => 2
  }

  /** The case backed by `code`, if any (PHP's `tryFrom`). A code is
      accepted by the `status` filter of the reservation lists exactly when
      this is some case. */
  function TryFrom(code: int): (r: Option<ReservationStatus>)
    ensures r.Some? <==> code == 1 || code == 2
    ensures forall s: ReservationStatus :: r == Some(s) <==> Status(s) == code
  {
    if code == 1 then Some(StatusActive)
    else if code == 2 then Some(StatusCancelled)
    else None
  }

  /** Decoding a status code gives back the case it came from. */
  lemma StatusRoundTrip(s: ReservationStatus)
    ensures TryFrom(Status(s)) == Some(s)
  {
  }

  /** Distinct cases have distinct codes. */
  lemma StatusInjective(a: ReservationStatus, b: ReservationStatus)
    ensures Status(a) == Status(b) ==> a == b
  {
  }
}
