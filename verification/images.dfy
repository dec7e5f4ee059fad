/** The calculator images of `ImageService`: uploads, the queue of
    proposals waiting for a moderator, approval, rejection and deletion.
    The repository becomes a map from image id to image with an identity
    counter; which calculators exist is a parameter, the stored file's name
    is the one the file storage handed back, and the clock is a parameter. */
module Images {
  import opened Wrappers
  import Clock

  datatype Image = Image(
    calculatorId: int,
    imagePath: string,
    uploadedBy: string,
    isProposal: bool,
    isApproved: bool,
    approvedBy: Option<string>,
    uploadedAt: Clock.DateTime,
    approvedAt: Option<Clock.DateTime>)

  datatype Gallery = Gallery(images: map<nat, Image>, nextId: nat)

  /** Every stored id was handed out before the counter's current value. */
  predicate Valid(g: Gallery) {
    forall id :: id in g.images ==> id < g.nextId
  }

  const NoCalculator: string := "IllegalArgumentException: Calculator not found"

  /** `findByIsProposalTrueAndIsApprovedFalse`: a proposal nobody has
      approved yet. */
  predicate Pending(img: Image) {
    img.isProposal && !img.isApproved
  }

  /** `uploadImage`: fails for an unknown calculator; otherwise stores a new
      image under a fresh id. A proposal for the shared catalogue waits for
      approval; an image for the user's own collection is approved at once. */
  function UploadImage(g: Gallery, calculators: set<int>, calculatorId: int, filename: string,
                       username: string, propose: bool, now: Clock.DateTime): (r: Result<(Gallery, nat)>)
    requires Valid(g)
    ensures r.Err? <==> calculatorId !in calculators
    ensures r.Err? ==> r.error == NoCalculator
    ensures r.Ok? ==> Valid(r.value.0) && r.value.1 !in g.images
    ensures r.Ok? ==> r.value.0.images.Keys == g.images.Keys + {r.value.1}
    ensures r.Ok? ==> forall id :: id in g.images ==> r.value.0.images[id] == g.images[id]
    ensures r.Ok? ==> var img := r.value.0.images[r.value.1];
                      && img.calculatorId == calculatorId && img.imagePath == filename
                      && img.uploadedBy == username && img.uploadedAt == now
                      && (Pending(img) <==> propose) && (img.isApproved <==> !propose)
                      && img.approvedBy.None? && img.approvedAt.None?
  {
    if calculatorId !in calculators then Err(NoCalculator)
    else
      var id := g.nextId;
      var img := Image(calculatorId, filename, username, propose, !propose, None, now, None);
      Ok((Gallery(g.images[id := img], id + 1), id))
  }

  /** `getPendingProposals`, without the paging: the ids of the pending
      images. */
  function PendingProposals(g: Gallery): (r: set<nat>)
    ensures forall id :: id in r <==> id in g.images && Pending(g.images[id])
  {
    set id | id in g.images && Pending(g.images[id])
  }

  /** `approveImage`: false, changing nothing, for an unknown id; otherwise
      the image is approved, no longer a proposal, and carries its approver
      and the time. */
  function ApproveImage(g: Gallery, imageId: nat, approvedBy: string, now: Clock.DateTime): (r: (Gallery, bool))
    ensures r.1 <==> imageId in g.images
    ensures !r.1 ==> r.0 == g
    ensures r.1 ==> r.0.nextId == g.nextId && r.0.images.Keys == g.images.Keys
    ensures r.1 ==> forall id :: id in g.images && id != imageId ==> r.0.images[id] == g.images[id]
    ensures r.1 ==> var img := r.0.images[imageId];
                    && img.isApproved && !img.isProposal
                    && img.approvedBy == Some(approvedBy) && img.approvedAt == Some(now)
                    && img.calculatorId == g.images[imageId].calculatorId
                    && img.imagePath == g.images[imageId].imagePath
                    && img.uploadedBy == g.images[imageId].uploadedBy
                    && img.uploadedAt == g.images[imageId].uploadedAt
  {
    if imageId !in g.images then (g, false)
    else
      var img := g.images[imageId].(isApproved := true, isProposal := false,
                                    approvedBy := Some(approvedBy), approvedAt := Some(now));
      (g.(images := g.images[imageId := img]), true)
  }

  /** `rejectImage`: false, changing nothing, for an unknown id; otherwise
      the image is removed whatever its state. */
  function RejectImage(g: Gallery, imageId: nat): (r: (Gallery, bool))
    ensures r.1 <==> imageId in g.images
    ensures r.0.nextId == g.nextId
    ensures r.0.images.Keys == g.images.Keys - {imageId}
    ensures forall id :: id in r.0.images ==> r.0.images[id] == g.images[id]
  {
    if imageId !in g.images then (g, false)
    else (g.(images := g.images - {imageId}), true)
  }

  /** Who may delete an image: its uploader, or anybody while it is not
      approved. */
  predicate MayDelete(img: Image, username: string) {
    img.uploadedBy == username || !img.isApproved
  }

  /** `deleteImage`: the image is removed when it exists and the caller may
      delete it; otherwise false and nothing changes. */
  function DeleteImage(g: Gallery, imageId: nat, username: string): (r: (Gallery, bool))
    ensures r.1 <==> imageId in g.images && MayDelete(g.images[imageId], username)
    ensures !r.1 ==> r.0 == g
    ensures r.1 ==> r.0.nextId == g.nextId && r.0.images == g.images - {imageId}
  {
    if imageId !in g.images then (g, false)
    else if g.images[imageId].uploadedBy != username && g.images[imageId].isApproved then (g, false)
    else (g.(images := g.images - {imageId}), true)
  }

  /** Every operation keeps the ids below the counter. */
  lemma OperationsKeepValid(g: Gallery, imageId: nat, who: string, now: Clock.DateTime)
    requires Valid(g)
    ensures Valid(ApproveImage(g, imageId, who, now).0)
    ensures Valid(RejectImage(g, imageId).0)
    ensures Valid(DeleteImage(g, imageId, who).0)
  {
  }

  /** The moderation path: a proposal is pending after its upload; once
      approved it has left the queue, a stranger can no longer delete it,
      and its uploader still can. */
  lemma ProposalLifecycle(g: Gallery, calculators: set<int>, calculatorId: int, filename: string,
                          uploader: string, moderator: string, stranger: string, t0: Clock.DateTime, t1: Clock.DateTime)
    requires Valid(g) && calculatorId in calculators && stranger != uploader
    ensures var (g1, id) := UploadImage(g, calculators, calculatorId, filename, uploader, true, t0).value;
            && id in PendingProposals(g1)
            && var g2 := ApproveImage(g1, id, moderator, t1).0;
               && id !in PendingProposals(g2)
               && DeleteImage(g2, id, stranger) == (g2, false)
               && DeleteImage(g2, id, uploader).1
  {
    var (g1, id) := UploadImage(g, calculators, calculatorId, filename, uploader, true, t0).value;
    var g2 := ApproveImage(g1, id, moderator, t1).0;
    assert g2.images[id].uploadedBy == uploader && g2.images[id].isApproved;
  }

  /** Until it is approved, a proposal can be deleted by anybody and
      rejected by the moderator: both remove exactly that image. */
  lemma PendingRemovable(g: Gallery, imageId: nat, anybody: string)
    requires imageId in g.images && Pending(g.images[imageId])
    ensures DeleteImage(g, imageId, anybody).1
    ensures DeleteImage(g, imageId, anybody).0 == RejectImage(g, imageId).0
  {
  }

  /** Approving twice keeps the image approved, with the later approver and
      time. */
  lemma ApproveAgain(g: Gallery, imageId: nat, a: string, b: string, t0: Clock.DateTime, t1: Clock.DateTime)
    requires imageId in g.images
    ensures ApproveImage(ApproveImage(g, imageId, a, t0).0, imageId, b, t1) == ApproveImage(g, imageId, b, t1)
  {
    var g1 := ApproveImage(g, imageId, a, t0).0;
    var img := g.images[imageId].(isApproved := true, isProposal := false, approvedBy := Some(b), approvedAt := Some(t1));
    assert g1.images[imageId].(isApproved := true, isProposal := false, approvedBy := Some(b), approvedAt := Some(t1)) == img;
    assert g1.images[imageId := img] == g.images[imageId := img];
  }
}
