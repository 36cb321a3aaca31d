/** Review moderation: visitors submit reviews, which start pending; an
    admin approves them; only approved reviews are listed publicly. */
module Moderation {
  import opened Outcomes
  import opened Entities
  import opened Media
  import opened AdminAuth
  import Tables

  /** The reply to a submission or an approval: the review id and its status. */
  datatype StatusReply = StatusReply(id: nat, status: ReviewStatus)

  /** The photo rows stored with review `reviewId`: one per file, under the ids that follow `reviewId`. */
  function PhotoRows(reviewId: nat, files: seq<Upload>): (m: map<nat, ReviewPhoto>)
    ensures forall k :: k in m <==> reviewId < k <= reviewId + |files|
    ensures forall i :: 0 <= i < |files| ==> m[reviewId + 1 + i] == ReviewPhoto(reviewId, ReviewPhotoUrl(files[i]))
    ensures forall k :: k in m ==> m[k].reviewId == reviewId
    ensures forall k :: k in m ==> InReviewFolder(m[k].url)
  {
    if files == [] then map[]
    else
      var n := |files| - 1;
      PhotoRows(reviewId, files[..n])[reviewId + 1 + n := ReviewPhoto(reviewId, ReviewPhotoUrl(files[n]))]
  }

  /** The store after a review and its photos are committed in one unit. */
  function Commit(s: State, review: Review, files: seq<Upload>): (s': State)
    ensures s'.reviews.Keys == s.reviews.Keys + {s.nextId}
    ensures s'.reviews[s.nextId] == review
    ensures forall k :: k in s.reviews && k != s.nextId ==> s'.reviews[k] == s.reviews[k]
    ensures forall k :: k in s'.reviewPhotos <==> k in s.reviewPhotos || s.nextId < k <= s.nextId + |files|
    ensures forall i :: 0 <= i < |files| ==>
              s'.reviewPhotos[s.nextId + 1 + i] == ReviewPhoto(s.nextId, ReviewPhotoUrl(files[i]))
    ensures forall k :: k in s.reviewPhotos && !(s.nextId < k <= s.nextId + |files|) ==>
              s'.reviewPhotos[k] == s.reviewPhotos[k]
    ensures s'.nextId == s.nextId + 1 + |files| && s'.clock == s.clock + 1
    ensures s' == s.(reviews := s'.reviews, reviewPhotos := s'.reviewPhotos, nextId := s'.nextId, clock := s'.clock)
  {
    var id := s.nextId;
    s.(reviews := s.reviews[id := review],
       reviewPhotos := s.reviewPhotos + PhotoRows(id, files),
       nextId := id + 1 + |files|,
       clock := s.clock + 1)
  }

  /** The form fields of a submission pass parsing: the rating is within
      bounds and the required text is not empty (an empty form value counts
      as a missing one). */
  predicate FormOk(rating: int, text: string) {
    RatingInRange(rating) && text != ""
  }

  /** POST /reviews. The form is checked while it is parsed, before the
      place is looked up; the file count after. */
  function CreateReview(s: State, placeId: nat, authorName: Option<string>, rating: int,
                        text: string, files: seq<Upload>): (r: Result<(State, StatusReply)>)
    ensures r == Err(Validation) <==> !FormOk(rating, text) || (placeId in s.places && |files| > MaxReviewPhotos)
    ensures r == Err(NotFound) <==> FormOk(rating, text) && placeId !in s.places
    ensures r.Ok? <==> FormOk(rating, text) && placeId in s.places && |files| <= MaxReviewPhotos
    ensures r.Ok? ==> r.value.1 == StatusReply(s.nextId, Pending)
    ensures r.Ok? ==> r.value.0 == Commit(s, Review(placeId, authorName, rating, text, Pending, s.clock), files)
  {
    if !FormOk(rating, text) then Err(Validation)
    else if placeId !in s.places then Err(NotFound)
    else if |files| > MaxReviewPhotos then Err(Validation)
    else
      var review := Review(placeId, authorName, rating, text, Pending, s.clock);
      Ok((Commit(s, review, files), StatusReply(s.nextId, Pending)))
  }

  /** A review is publicly visible under place `placeId`. */
  predicate Visible(s: State, placeId: nat, id: nat) {
    id in s.reviews && s.reviews[id].placeId == placeId && s.reviews[id].status == Approved
  }

  function VisibleIds(s: State, placeId: nat): (ids: set<nat>)
    ensures forall id :: id in ids <==> Visible(s, placeId, id)
  {
    set id | id in s.reviews && Visible(s, placeId, id)
  }

  function CreatedAt(r: Review): int {
    r.createdAt
  }

  /** `ids` lists distinct reviews of `m`, newest first. */
  predicate NewestFirst(m: map<nat, Review>, ids: seq<nat>) {
    && (forall i :: 0 <= i < |ids| ==> ids[i] in m)
    && (forall i, j :: 0 <= i < j < |ids| ==> ids[i] != ids[j] && m[ids[i]].createdAt >= m[ids[j]].createdAt)
  }

  /** GET /reviews?place_id=: the approved reviews of one place, newest first. */
  function ListApprovedReviews(s: State, placeId: nat): (r: seq<nat>)
    ensures forall id :: id in r <==> Visible(s, placeId, id)
    ensures |r| == |VisibleIds(s, placeId)|
    ensures NewestFirst(s.reviews, r)
  {
    Tables.Ordered(s.reviews, VisibleIds(s, placeId), CreatedAt)
  }

  /** GET /admin/reviews/pending: every pending review, newest first. */
  function ListPendingReviews(s: State, key: Option<string>): (r: Result<seq<nat>>)
    ensures r.Err? <==> !IsAdmin(key)
    ensures r.Err? ==> r.error == Unauthorized
    ensures r.Ok? ==> forall id :: id in r.value <==> id in s.reviews && s.reviews[id].status == Pending
    ensures r.Ok? ==> NewestFirst(s.reviews, r.value)
  {
    if !IsAdmin(key) then Err(Unauthorized)
    else
      var ids := set id | id in s.reviews && s.reviews[id].status == Pending;
      Ok(Tables.Ordered(s.reviews, ids, CreatedAt))
  }

  /** POST /admin/reviews/{id}/approve. */
  function ApproveReview(s: State, key: Option<string>, reviewId: nat): (r: Result<(State, StatusReply)>)
    ensures r == Err(Unauthorized) <==> !IsAdmin(key)
    ensures r == Err(NotFound) <==> IsAdmin(key) && reviewId !in s.reviews
    ensures r.Ok? <==> IsAdmin(key) && reviewId in s.reviews
    ensures r.Ok? ==>
      var (s', reply) := r.value;
      && reply == StatusReply(reviewId, Approved)
      && s'.reviews.Keys == s.reviews.Keys
      && s'.reviews[reviewId] == s.reviews[reviewId].(status := Approved)
      && (forall k :: k in s.reviews && k != reviewId ==> s'.reviews[k] == s.reviews[k])
      && s' == s.(reviews := s'.reviews)
  {
    if !IsAdmin(key) then Err(Unauthorized)
    else if reviewId !in s.reviews then Err(NotFound)
    else
      var s' := s.(reviews := s.reviews[reviewId := s.reviews[reviewId].(status := Approved)]);
      Ok((s', StatusReply(reviewId, Approved)))
  }

  /** Approving an already approved review changes nothing. */
  lemma ApproveIdempotent(s: State, key: Option<string>, reviewId: nat)
    ensures var r := ApproveReview(s, key, reviewId);
            r.Ok? ==> ApproveReview(r.value.0, key, reviewId) == r
  {
    var r := ApproveReview(s, key, reviewId);
    if r.Ok? {
      var s' := r.value.0;
      assert s'.reviews[reviewId].(status := Approved) == s'.reviews[reviewId];
      assert s'.reviews[reviewId := s'.reviews[reviewId]] == s'.reviews;
    }
  }

  /** A pending review is hidden; once approved it is listed under its place. */
  lemma ApprovalPublishes(s: State, key: Option<string>, reviewId: nat)
    requires IsAdmin(key) && reviewId in s.reviews
    ensures var p := s.reviews[reviewId].placeId;
            && (s.reviews[reviewId].status == Pending ==> reviewId !in ListApprovedReviews(s, p))
            && reviewId in ListApprovedReviews(ApproveReview(s, key, reviewId).value.0, p)
  {
  }

  /** Approval publishes nothing but the approved review. */
  lemma ApprovalPublishesOnlyIt(s: State, key: Option<string>, reviewId: nat, placeId: nat, other: nat)
    requires IsAdmin(key) && reviewId in s.reviews && other != reviewId
    ensures other in ListApprovedReviews(ApproveReview(s, key, reviewId).value.0, placeId)
            <==> other in ListApprovedReviews(s, placeId)
  {
  }

  /** On a well-formed store, a submission adds exactly one review and
      exactly one photo per file, and those are the review's only photos. */
  lemma CommitCounts(s: State, review: Review, files: seq<Upload>)
    requires s.Valid()
    ensures var s' := Commit(s, review, files);
            && s.nextId !in s.reviews
            && |s'.reviews| == |s.reviews| + 1
            && |s'.reviewPhotos| == |s.reviewPhotos| + |files|
            && PhotosOf(s, s.nextId) == {}
            && |PhotosOf(s', s.nextId)| == |files|
  {
    var s' := Commit(s, review, files);
    var id := s.nextId;
    assert s'.reviews.Keys == s.reviews.Keys + {id};
    PhotoCount(s, review, files);
    PhotosOfNew(s, review, files);
  }

  lemma PhotoCount(s: State, review: Review, files: seq<Upload>)
    requires s.IdsIssued()
    ensures |Commit(s, review, files).reviewPhotos| == |s.reviewPhotos| + |files|
  {
    var added := PhotoRows(s.nextId, files);
    AddedRowsCount(s.reviewPhotos, s.nextId, files);
    assert Commit(s, review, files).reviewPhotos == s.reviewPhotos + added;
  }

  lemma AddedRowsCount(photos: map<nat, ReviewPhoto>, reviewId: nat, files: seq<Upload>)
    requires forall k :: k in photos ==> k <= reviewId
    ensures |photos + PhotoRows(reviewId, files)| == |photos| + |files|
  {
    var added := PhotoRows(reviewId, files);
    assert added.Keys == Tables.IdRange(reviewId + 1, |files|);
    Tables.DisjointAddSize(photos, added);
  }

  lemma PhotosOfNew(s: State, review: Review, files: seq<Upload>)
    requires s.IdsIssued() && s.Linked()
    ensures PhotosOf(s, s.nextId) == {}
    ensures PhotosOf(Commit(s, review, files), s.nextId) == Tables.IdRange(s.nextId + 1, |files|)
  {
    var s' := Commit(s, review, files);
    var id := s.nextId;
    var added := PhotoRows(id, files);
    assert s'.reviewPhotos == s.reviewPhotos + added;
    forall k | k in s.reviewPhotos
      ensures s.reviewPhotos[k].reviewId != id
    {
      assert s.reviewPhotos[k].reviewId in s.reviews;
    }
    forall k
      ensures k in PhotosOf(s', id) <==> k in Tables.IdRange(id + 1, |files|)
    {
      if k in added {
        assert s'.reviewPhotos[k] == added[k];
      }
    }
  }

  /** Committing a review whose place exists and whose rating is in range keeps every store invariant. */
  lemma CommitPreservesValid(s: State, review: Review, files: seq<Upload>)
    requires s.Valid()
    requires review.placeId in s.places && RatingInRange(review.rating) && review.createdAt == s.clock
    ensures Commit(s, review, files).Valid()
  {
    CommitIdsIssued(s, review, files);
    CommitLinked(s, review, files);
    CommitRowsOk(s, review, files);
  }

  lemma CommitIdsIssued(s: State, review: Review, files: seq<Upload>)
    requires s.IdsIssued()
    ensures Commit(s, review, files).IdsIssued()
  {
    assert Commit(s, review, files).reviewPhotos == s.reviewPhotos + PhotoRows(s.nextId, files);
  }

  lemma CommitLinked(s: State, review: Review, files: seq<Upload>)
    requires s.Linked() && review.placeId in s.places
    ensures Commit(s, review, files).Linked()
  {
    assert Commit(s, review, files).reviewPhotos == s.reviewPhotos + PhotoRows(s.nextId, files);
  }

  lemma CommitRowsOk(s: State, review: Review, files: seq<Upload>)
    requires s.RowsOk() && RatingInRange(review.rating) && review.createdAt == s.clock
    ensures Commit(s, review, files).RowsOk()
  {
    assert Commit(s, review, files).reviewPhotos == s.reviewPhotos + PhotoRows(s.nextId, files);
  }

  lemma ApprovePreservesValid(s: State, key: Option<string>, reviewId: nat)
    requires s.Valid()
    ensures var r := ApproveReview(s, key, reviewId);
            r.Ok? ==> r.value.0.Valid()
  {
  }
}
