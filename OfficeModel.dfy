/** The office and image records the controllers work on. */
module OfficeModel {
  import opened Common
  import opened OfficeApprovalStatusEnum

  /** One row of the offices table with its casts: coordinates as decimals,
      the approval-status enum, the hidden flag, integer price per day and
      integer monthly discount (a percentage). `tags` is the office's row
      set in the office-tag pivot table. */
  datatype Office = Office(
    id: nat,
    userId: nat,
    title: string,
    description: string,
    lat: real,
    lng: real,
    addressLine1: string,
    approvalStatus: OfficeApprovalStatus,
    hidden: bool,
    pricePerDay: int,
    monthlyDiscount: int,
    featuredImageId: Option<nat>,
    tags: set<nat>)

  /** One row of the images table that belongs to an office. */
  datatype Image = Image(id: nat, officeId: nat, path: string)

  /** Offices listed in strictly increasing id order (the order of an
      auto-increment primary key). */
  predicate IdsAscending(offices: seq<Office>)
  {
    forall i, j :: 0 <= i < j < |offices| ==> offices[i].id < offices[j].id
  }

  /** No two offices share an id (a primary key). */
  predicate UniqueIds(offices: seq<Office>)
  {
    forall i, j :: 0 <= i < |offices| && 0 <= j < |offices| && i != j ==> offices[i].id != offices[j].id
  }

  /** The office with primary key `id` (`Office::find`). */
  function FindOffice(offices: seq<Office>, id: nat): (r: Option<Office>)
    ensures r.Some? ==> r.value in offices && r.value.id == id
    ensures r.None? ==> forall o :: o in offices ==> o.id != id
  {
    if offices == [] then None
    else if offices[0].id == id then Some(offices[0])
    else FindOffice(offices[1..], id)
  }

  /** When ids are unique, the office `FindOffice` returns is the only one
      with that id. */
  lemma FindOfficeUnique(offices: seq<Office>, o: Office)
    requires UniqueIds(offices)
    requires o in offices
    ensures FindOffice(offices, o.id) == Some(o)
  {
    var k :| 0 <= k < |offices| && offices[k] == o;
    var f := FindOffice(offices, o.id).value;
    var m :| 0 <= m < |offices| && offices[m] == f;
    assert m == k;
  }
}
