/** Adding and removing the photos of an office. */
module OfficeImages {
  import opened Common
  import opened OfficeModel

  /** Why a deletion is refused. */
  datatype ImageError =
    | NotFound     // no image has that id
    | NotBelonged  // "cannot delete un belonged image."
    | OnlyImage    // "cannot delete the only image."
    | Featured     // "cannot delete the featured image."

  /** The number of images that belong to `officeId`. */
  function ImageCount(images: seq<Image>, officeId: nat): (n: nat)
    ensures n <= |images|
    ensures n > 0 <==> exists im :: im in images && im.officeId == officeId
  {
    if images == [] then 0
    else (if images[0].officeId == officeId then 1 else 0) + ImageCount(images[1..], officeId)
  }

  /** Removing one image of an office lowers that office's count by one. */
  lemma {:induction false} ImageCountRemove(images: seq<Image>, k: nat, officeId: nat)
    requires k < |images|
    ensures ImageCount(images[..k] + images[k + 1..], officeId) ==
            ImageCount(images, officeId) - (if images[k].officeId == officeId then 1 else 0)
  {
    if k == 0 {
      assert images[..k] + images[k + 1..] == images[1..];
    } else {
      ImageCountRemove(images[1..], k - 1, officeId);
      assert images[..k] + images[k + 1..] == [images[0]] + (images[1..][..k - 1] + images[1..][k..]);
    }
  }

  /** The images table. */
  class ImageTable {
    var images: seq<Image>
    var nextId: nat

    /** Ids are strictly increasing and below `nextId`. */
    ghost predicate Valid()
      reads this
    {
      && (forall i, j :: 0 <= i < j < |images| ==> images[i].id < images[j].id)
      && (forall i :: 0 <= i < |images| ==> images[i].id < nextId)
    }

    constructor ()
      ensures Valid()
      ensures images == [] && nextId == 1
    {
      images := [];
      nextId := 1;
    }

    /** Attach one uploaded image, stored under the opaque `path`, to
        `officeId`. */
    method Store(officeId: nat, path: string) returns (image: Image)
      requires Valid()
      modifies this
      ensures Valid()
      ensures image == Image(old(nextId), officeId, path)
      ensures images == old(images) + [image]
      ensures nextId == old(nextId) + 1
      ensures ImageCount(images, officeId) == ImageCount(old(images), officeId) + 1
    {
      image := Image(nextId, officeId, path);
      ImageCountRemove(images + [image], |images|, officeId);
      assert (images + [image])[..|images|] + (images + [image])[|images| + 1..] == images;
      images := images + [image];
      nextId := nextId + 1;
    }

    /** Delete image `imageId` of `office`. Refused, in this order, when the
        image is not the office's, when it is the office's only image, and
        when it is the office's featured image; otherwise exactly that image
        is removed, so the office keeps at least one image. */
    method Destroy(office: Office, imageId: nat) returns (r: Outcome<ImageError>)
      requires Valid()
      modifies this
      ensures Valid()
      ensures nextId == old(nextId)
      ensures IndexOf(old(images), imageId).None? ==> r == Fail(NotFound) && images == old(images)
      ensures IndexOf(old(images), imageId).Some? ==>
                var i := IndexOf(old(images), imageId).value;
                if old(images)[i].officeId != office.id then
                  r == Fail(NotBelonged) && images == old(images)
                else if ImageCount(old(images), office.id) == 1 then
                  r == Fail(OnlyImage) && images == old(images)
                else if office.featuredImageId == Some(imageId) then
                  r == Fail(Featured) && images == old(images)
                else
                  r == Pass && images == old(images)[..i] + old(images)[i + 1..]
      ensures r == Pass ==> forall im :: im in images <==> im in old(images) && im.id != imageId
      ensures r == Pass ==> ImageCount(images, office.id) == ImageCount(old(images), office.id) - 1 >= 1
    {
      var found := IndexOf(images, imageId);
      if found.None? {
        return Fail(NotFound);
      }
      var k := found.value;
      if images[k].officeId != office.id {
        return Fail(NotBelonged);
      }
      if ImageCount(images, office.id) == 1 {
        return Fail(OnlyImage);
      }
      if office.featuredImageId == Some(imageId) {
        return Fail(Featured);
      }
      RemoveAt(k, office.id);
      r := Pass;
    }

    /** Remove the image at position `k`, one of the `officeId`'s images. */
    method RemoveAt(k: nat, officeId: nat)
      requires Valid()
      requires k < |images| && images[k].officeId == officeId
      modifies this
      ensures Valid()
      ensures nextId == old(nextId)
      ensures images == old(images)[..k] + old(images)[k + 1..]
      ensures forall im :: im in images <==> im in old(images) && im.id != old(images)[k].id
      ensures ImageCount(images, officeId) == ImageCount(old(images), officeId) - 1
    {
      ImageCountRemove(images, k, officeId);
      RemoveAtKeepsOthers(images, k, nextId);
      images := images[..k] + images[k + 1..];
    }
  }

  /** The position of the image with id `id`, if there is one. */
  function IndexOf(images: seq<Image>, id: nat): (r: Option<nat>)
    ensures r.Some? ==> r.value < |images| && images[r.value].id == id
    ensures r.None? <==> forall i :: 0 <= i < |images| ==> images[i].id != id
  {
    if images == [] then None
    else if images[0].id == id then Some(0)
    else match IndexOf(images[1..], id)
      case Some(k) => Some(k + 1)
      case None => None
  }

  /** Removing position `k` from a list with increasing ids removes exactly
      the image with that id and keeps the ids increasing and below any
      bound they were below. */
  lemma RemoveAtKeepsOthers(images: seq<Image>, k: nat, bound: nat)
    requires k < |images|
    requires forall i, j :: 0 <= i < j < |images| ==> images[i].id < images[j].id
    requires forall i :: 0 <= i < |images| ==> images[i].id < bound
    ensures var rest := images[..k] + images[k + 1..];
            && (forall im :: im in rest <==> im in images && im.id != images[k].id)
            && (forall i, j :: 0 <= i < j < |rest| ==> rest[i].id < rest[j].id)
            && (forall i :: 0 <= i < |rest| ==> rest[i].id < bound)
  {
    var rest := images[..k] + images[k + 1..];
    forall i | 0 <= i < |rest| ensures rest[i] == images[if i < k then i else i + 1] {
    }
    forall im | im in images && im.id != images[k].id ensures im in rest {
      var j :| 0 <= j < |images| && images[j] == im;
      assert rest[if j < k then j else j - 1] == im;
    }
  }
}
