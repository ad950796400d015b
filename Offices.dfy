/** The public office list, a single office, and creating an office. */
module Offices {
  import opened Common
  import RS = ReservationStatusEnum
  import opened OfficeApprovalStatusEnum
  import opened ReservationModel
  import opened OfficeModel

  // ---------------------------------------------------------------------
  // Counting ACTIVE reservations

  /** The number of ACTIVE reservations of `officeId` (the
      `reservations_count` both the list and the single view report). */
  function ActiveCount(rs: seq<Reservation>, officeId: nat): (n: nat)
    ensures n <= |rs|
    ensures n == 0 <==> forall r :: r in rs ==> r.officeId != officeId || r.status != RS.StatusActive
  {
    if rs == [] then 0
    else (if rs[0].officeId == officeId && rs[0].status == RS.StatusActive then 1 else 0)
         + ActiveCount(rs[1..], officeId)
  }

  /** Appending a reservation raises the count of its office by one exactly
      when it is ACTIVE; other offices' counts do not move. */
  lemma {:induction false} ActiveCountAppend(rs: seq<Reservation>, x: Reservation, officeId: nat)
    ensures ActiveCount(rs + [x], officeId) ==
            ActiveCount(rs, officeId) + (if x.officeId == officeId && x.status == RS.StatusActive then 1 else 0)
  {
    if rs != [] {
      assert (rs + [x])[1..] == rs[1..] + [x];
      ActiveCountAppend(rs[1..], x, officeId);
    }
  }

  /** Cancelling an ACTIVE reservation lowers its office's count by one. */
  lemma {:induction false} ActiveCountCancel(rs: seq<Reservation>, k: nat, officeId: nat)
    requires k < |rs|
    ensures ActiveCount(rs[k := rs[k].(status := RS.StatusCancelled)], officeId) ==
            ActiveCount(rs, officeId) - (if rs[k].officeId == officeId && rs[k].status == RS.StatusActive then 1 else 0)
  {
    var rs' := rs[k := rs[k].(status := RS.StatusCancelled)];
    if k > 0 {
      assert rs'[1..] == rs[1..][k - 1 := rs[k].(status := RS.StatusCancelled)];
      ActiveCountCancel(rs[1..], k - 1, officeId);
    } else {
      assert rs'[1..] == rs[1..];
    }
  }

  // ---------------------------------------------------------------------
  // Listing

  /** The list's request parameters (distance ordering is not modelled). */
  datatype OfficeQuery = OfficeQuery(userId: Option<nat>, visitorId: Option<nat>)

  /** An office as the list shows it, with its count of ACTIVE reservations. */
  datatype OfficeListing = OfficeListing(office: Office, reservationsCount: nat)

  /** The office is APPROVED and not hidden, belongs to the requested host
      when one is given, and has at least one reservation (of any status) by
      the requested visitor when one is given. */
  predicate Listed(o: Office, rs: seq<Reservation>, q: OfficeQuery)
    // without filters: exactly the APPROVED, visible offices
    ensures !Given(q.userId) && !Given(q.visitorId) ==>
              (Listed(o, rs, q) <==> o.approvalStatus == ApprovalApproved && !o.hidden)
    // the visitor filter counts reservations of any status, cancelled ones too
    ensures Given(q.visitorId) && o.approvalStatus == ApprovalApproved && !o.hidden &&
            (!Given(q.userId) || o.userId == q.userId.value) &&
            (exists x :: x in rs && x.officeId == o.id && x.userId == q.visitorId.value &&
                         x.status == RS.StatusCancelled) ==>
              Listed(o, rs, q)
  {
    && o.approvalStatus == ApprovalApproved
    && !o.hidden
    && (Given(q.userId) ==> o.userId == q.userId.value)
    && (Given(q.visitorId) ==> exists r :: r in rs && r.officeId == o.id && r.userId == q.visitorId.value)
  }

  /** Listings are in strictly increasing office-id order. */
  predicate ListingIdsAscending(ls: seq<OfficeListing>)
  {
    forall i, j :: 0 <= i < j < |ls| ==> ls[i].office.id < ls[j].office.id
  }

  /** The office list: the listed offices, oldest id first, each with its
      ACTIVE reservation count. */
  function OfficeIndex(offices: seq<Office>, rs: seq<Reservation>, q: OfficeQuery): (ls: seq<OfficeListing>)
    ensures |ls| <= |offices|
    ensures forall l :: l in ls ==>
              && l.office in offices
              && l.office.approvalStatus == ApprovalApproved && !l.office.hidden
              && Listed(l.office, rs, q)
              && l.reservationsCount == ActiveCount(rs, l.office.id)
    ensures forall o :: o in offices && Listed(o, rs, q) ==> OfficeListing(o, ActiveCount(rs, o.id)) in ls
  {
    if offices == [] then []
    else
      var rest := OfficeIndex(offices[1..], rs, q);
      if Listed(offices[0], rs, q) then [OfficeListing(offices[0], ActiveCount(rs, offices[0].id))] + rest
      else rest
  }

  /** Without coordinates the list is ordered by id, oldest first: offices
      kept in id order come out in id order. */
  lemma {:induction false} OfficeIndexAscending(offices: seq<Office>, rs: seq<Reservation>, q: OfficeQuery)
    requires IdsAscending(offices)
    ensures ListingIdsAscending(OfficeIndex(offices, rs, q))
  {
    if offices != [] {
      var rest := OfficeIndex(offices[1..], rs, q);
      OfficeIndexAscending(offices[1..], rs, q);
      if Listed(offices[0], rs, q) {
        forall l | l in rest
          ensures offices[0].id < l.office.id
        {
          var k :| 0 <= k < |offices[1..]| && offices[1..][k] == l.office;
          assert offices[k + 1] == l.office;
        }
        PrependKeepsAscending(OfficeListing(offices[0], ActiveCount(rs, offices[0].id)), rest);
      }
    }
  }

  lemma PrependKeepsAscending(head: OfficeListing, rest: seq<OfficeListing>)
    requires ListingIdsAscending(rest)
    requires forall l :: l in rest ==> head.office.id < l.office.id
    ensures ListingIdsAscending([head] + rest)
  {
    var ls := [head] + rest;
    forall i, j | 0 <= i < j < |ls| ensures ls[i].office.id < ls[j].office.id {
      assert ls[j] == rest[j - 1];
      if i > 0 { assert ls[i] == rest[i - 1]; }
    }
  }

  /** A single office by id, whatever its status, with its ACTIVE
      reservation count. */
  function Show(offices: seq<Office>, rs: seq<Reservation>, id: nat): (r: Option<OfficeListing>)
    ensures r.Some? ==> r.value.office in offices && r.value.office.id == id
                        && r.value.reservationsCount == ActiveCount(rs, id)
    ensures r.None? <==> forall o :: o in offices ==> o.id != id
  {
    match FindOffice(offices, id)
    case Some(o) => Some(OfficeListing(o, ActiveCount(rs, id)))
    case None => None
  }

  // ---------------------------------------------------------------------
  // Creating an office

  /** The validated fields of a new office. A request may carry other keys,
      an approval status among them; validation drops them. */
  datatype OfficeInput = OfficeInput(
    title: string,
    description: string,
    lat: real,
    lng: real,
    addressLine1: string,
    hidden: bool,
    pricePerDay: int,
    monthlyDiscount: int,
    tags: Option<seq<nat>>)  // `tags` is optional in the request

  datatype OfficeField = PricePerDayField | MonthlyDiscountField | TagsField

  /** Why creating an office fails: validation, or a request without
      `tags`, which fails only after the office row has been inserted (the
      tag sync reads a key validation does not require). */
  datatype CreateError = Invalid(fields: set<OfficeField>) | TagsKeyMissing

  /** The fields that fail validation: a price per day under 100, a
      negative monthly discount (there is no upper bound), or, when tags are
      given, a tag id that is not a known tag. */
  function OfficeInputErrors(input: OfficeInput, knownTags: set<nat>): (errs: set<OfficeField>)
    ensures errs == {} <==>
              && input.pricePerDay >= 100
              && input.monthlyDiscount >= 0
              && (input.tags.Some? ==> forall t :: t in input.tags.value ==> t in knownTags)
  {
    (if input.pricePerDay < 100 then {PricePerDayField} else {})
    + (if input.monthlyDiscount < 0 then {MonthlyDiscountField} else {})
    + (if input.tags.Some? && exists t :: t in input.tags.value && t !in knownTags then {TagsField} else {})
  }

  /** The offices table as office creation sees it. */
  class OfficeTable {
    var offices: seq<Office>
    var nextId: nat

    /** Ids are strictly increasing and below `nextId`. */
    ghost predicate Valid()
      reads this
    {
      && IdsAscending(offices)
      && forall i :: 0 <= i < |offices| ==> offices[i].id < nextId
    }

    constructor ()
      ensures Valid()
      ensures offices == [] && nextId == 1
    {
      offices := [];
      nextId := 1;
    }

    /** Create an office owned by `caller`. A valid request appends exactly
        one office, always PENDING approval and without a featured image.
        With tags, the office's tags are exactly the requested ones and the
        office is returned; without them the office is still appended (with
        no tags) and the request then fails. */
    method Create(caller: nat, input: OfficeInput, knownTags: set<nat>) returns (r: Result<Office, CreateError>)
      requires Valid()
      modifies this
      ensures Valid()
      ensures OfficeInputErrors(input, knownTags) != {} ==>
                && r == Err(Invalid(OfficeInputErrors(input, knownTags)))
                && offices == old(offices) && nextId == old(nextId)
      ensures OfficeInputErrors(input, knownTags) == {} ==>
                && |offices| == |old(offices)| + 1
                && offices[..|old(offices)|] == old(offices)
                && nextId == old(nextId) + 1
                && var office := offices[|old(offices)|];
                && office.id == old(nextId)
                && office.userId == caller
                && office.approvalStatus == ApprovalPending
                && office.featuredImageId == None
                && office.title == input.title && office.description == input.description
                && office.lat == input.lat && office.lng == input.lng
                && office.addressLine1 == input.addressLine1 && office.hidden == input.hidden
                && office.pricePerDay == input.pricePerDay
                && office.monthlyDiscount == input.monthlyDiscount
                && (input.tags.None? ==> office.tags == {} && r == Err(TagsKeyMissing))
                && (input.tags.Some? ==>
                      && (forall t :: t in office.tags <==> t in input.tags.value)
                      && r == Ok(office))
    {
      var errors := OfficeInputErrors(input, knownTags);
      if errors != {} {
        return Err(Invalid(errors));
      }
      var office := Office(nextId, caller, input.title, input.description, input.lat, input.lng,
                           input.addressLine1, ApprovalPending, input.hidden, input.pricePerDay,
                           input.monthlyDiscount, None, {});
      offices := offices + [office];
      nextId := nextId + 1;
      if input.tags.None? {
        return Err(TagsKeyMissing);
      }
      var tagged := office.(tags := set t | t in input.tags.value);
      offices := offices[|offices| - 1 := tagged];
      r := Ok(tagged);
    }

    /** The table's offices meet what the lookups and the list require of
        them: ids are unique, and in increasing order. */
    lemma ValidOfficesAreKeyed()
      requires Valid()
      ensures UniqueIds(offices) && IdsAscending(offices)
    {
      AscendingIdsAreUnique(offices);
    }
  }

  /** Strictly increasing ids are unique ids. */
  lemma AscendingIdsAreUnique(offices: seq<Office>)
    requires IdsAscending(offices)
    ensures UniqueIds(offices)
  {
    forall i, j | 0 <= i < |offices| && 0 <= j < |offices| && i != j
      ensures offices[i].id != offices[j].id
    {
      if i < j { assert offices[i].id < offices[j].id; } else { assert offices[j].id < offices[i].id; }
    }
  }

  /** A newly created office is PENDING, so it stays out of the public list
      until it is approved. */
  lemma NewOfficeNotListed(o: Office, rs: seq<Reservation>, q: OfficeQuery)
    requires o.approvalStatus == ApprovalPending
    ensures !Listed(o, rs, q)
  {
  }
}
