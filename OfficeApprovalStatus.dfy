/** The integer-backed enum of an office's approval status. */
module OfficeApprovalStatusEnum {
  import opened Common

  datatype OfficeApprovalStatus = ApprovalPending | ApprovalApproved

  /** The integer each case is declared with (the enum's backing value). */
  function Value(s: OfficeApprovalStatus): int
  {
    match s
    case ApprovalPending => 1
    case ApprovalApproved => 2
  }

  /** The cases in declaration order (`OfficeApprovalStatus::cases()`). */
  function Cases(): (cs: seq<OfficeApprovalStatus>)
    ensures |cs| == 2
    ensures forall s: OfficeApprovalStatus :: s in cs
  {
    var cs := [ApprovalPending, ApprovalApproved];
    forall s: OfficeApprovalStatus ensures s in cs {
      if s.ApprovalPending? { assert s == cs[0]; } else { assert s == cs[1]; }
    }
    cs
  }

  /** `status()`: the code the `match` in the enum returns. */
  function Status(s: OfficeApprovalStatus): (code: int)
    ensures code == Value(s)
    ensures code == 1 || code == 2
  {
    match s
    case ApprovalPending => 1
    case ApprovalApproved => 2
  }

  /** The case backed by `code`, if any (PHP's `tryFrom`). */
  function TryFrom(code: int): (r: Option<OfficeApprovalStatus>)
    ensures r.Some? <==> code == 1 || code == 2
    ensures forall s: OfficeApprovalStatus :: r == Some(s) <==> Status(s) == code
  {
    if code == 1 then Some(ApprovalPending)
    else if code == 2 then Some(ApprovalApproved)
    else None
  }

  /** Decoding a status code gives back the case it came from. */
  lemma StatusRoundTrip(s: OfficeApprovalStatus)
    ensures TryFrom(Status(s)) == Some(s)
  {
  }

  /** Distinct cases have distinct codes. */
  lemma StatusInjective(a: OfficeApprovalStatus, b: OfficeApprovalStatus)
    ensures Status(a) == Status(b) ==> a == b
  {
  }
}
