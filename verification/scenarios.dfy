/** End-to-end runs of the API from an empty database. */
module Scenarios {
  import opened Outcomes
  import opened Entities
  import opened Media
  import opened AdminAuth
  import M = Moderation
  import E = Events
  import opened Api

  /** A place whose only visible review is `id` lists exactly `[id]`. */
  lemma OnlyVisible(s: State, placeId: nat, id: nat)
    requires forall x :: M.Visible(s, placeId, x) <==> x == id
    ensures M.ListApprovedReviews(s, placeId) == [id]
  {
    assert M.VisibleIds(s, placeId) == {id};
    var r := M.ListApprovedReviews(s, placeId);
    assert r[0] in r;
  }

  /** A place lists no review exactly when none of its reviews is visible. */
  lemma EmptyListing(s: State, placeId: nat)
    ensures M.ListApprovedReviews(s, placeId) == [] <==> forall x :: !M.Visible(s, placeId, x)
  {
    var l := M.ListApprovedReviews(s, placeId);
    if l != [] {
      assert l[0] in l;
    } else {
      assert M.VisibleIds(s, placeId) == {};
    }
  }

  /** A submission adds no visible review anywhere. */
  lemma SubmissionStaysHidden(s: State, placeId: nat, author: Option<string>, rating: int, text: string,
                              files: seq<Upload>, q: nat, x: nat)
    requires s.IdsIssued()
    requires M.CreateReview(s, placeId, author, rating, text, files).Ok?
    ensures M.Visible(M.CreateReview(s, placeId, author, rating, text, files).value.0, q, x) <==> M.Visible(s, q, x)
  {
    assert s.nextId !in s.reviews;
  }

  /** On a well-formed store where place `placeId` has no visible review
      yet, a review with two photos is pending and hidden until an admin
      approves it; then it is the one review listed for its place, with
      both photos. */
  lemma ReviewLifecycle(s: State, placeId: nat, author: Option<string>, text: string, f1: Upload, f2: Upload)
    requires s.Valid() && placeId in s.places && text != ""
    requires M.ListApprovedReviews(s, placeId) == []
    ensures
      var submitted := M.CreateReview(s, placeId, author, 4, text, [f1, f2]).value;
      var id := submitted.1.id;
      var approved := M.ApproveReview(submitted.0, Some(AdminApiKey), id).value.0;
      && submitted.1.status == Pending
      && M.ListApprovedReviews(submitted.0, placeId) == []
      && M.ListApprovedReviews(approved, placeId) == [id]
      && |PhotosOf(approved, id)| == 2
  {
    var files := [f1, f2];
    var review := Review(placeId, author, 4, text, Pending, s.clock);
    var submitted := M.CreateReview(s, placeId, author, 4, text, files).value;
    var s2 := submitted.0;
    var id := submitted.1.id;
    assert s2 == M.Commit(s, review, files);
    M.CommitCounts(s, review, files);
    EmptyListing(s, placeId);
    forall x ensures !M.Visible(s2, placeId, x) {
      SubmissionStaysHidden(s, placeId, author, 4, text, files, placeId, x);
    }
    EmptyListing(s2, placeId);
    ApprovedAlone(s2, id, placeId);
  }

  /** Approving a review of a place with no visible review makes it the only one listed. */
  lemma ApprovedAlone(s: State, id: nat, placeId: nat)
    requires id in s.reviews && s.reviews[id].placeId == placeId
    requires forall x :: !M.Visible(s, placeId, x)
    ensures var s' := M.ApproveReview(s, Some(AdminApiKey), id).value.0;
            && M.ListApprovedReviews(s', placeId) == [id]
            && PhotosOf(s', id) == PhotosOf(s, id)
  {
    var s' := M.ApproveReview(s, Some(AdminApiKey), id).value.0;
    forall x
      ensures M.Visible(s', placeId, x) <==> x == id
    {
      if x != id && x in s.reviews {
        assert s'.reviews[x] == s.reviews[x];
        assert !M.Visible(s, placeId, x);
      }
    }
    OnlyVisible(s', placeId, id);
  }

  /** A sixth photo, a rating outside one to five, or an empty text is
      refused and the store is left exactly as it was. */
  lemma OversizedSubmissionRejected(s: State, placeId: nat, text: string, files: seq<Upload>, rating: int)
    requires placeId in s.places && |files| == 6
    ensures Handle(s, Public(SubmitReview(placeId, None, 4, text, files))) == (s, Failed(Validation))
    ensures rating == 0 || rating == 6 ==>
              Handle(s, Public(SubmitReview(placeId, None, rating, text, files[..2]))) == (s, Failed(Validation))
    ensures Handle(s, Public(SubmitReview(placeId, None, 4, "", []))) == (s, Failed(Validation))
  {
  }

  /** A short info with a line feed is refused; the same text without it is
      stored and listed with the other events. */
  lemma MultiLineEventRejected(s: State, title: string, date: int)
    ensures var admin := Some(AdminApiKey);
            && Handle(s, Admin(admin, CreateEvent(E.EventInput(title, date, "Вход\nсвободный", None))))
               == (s, Failed(Validation))
            && var (s', resp) := Handle(s, Admin(admin, CreateEvent(E.EventInput(title, date, "Вход свободный", None))));
               resp.Done? && resp.reply.Created? && resp.reply.id in E.ListEvents(s')
  {
    var admin := Some(AdminApiKey);
    assert "Вход\nсвободный"[4] == '\n';
    var ok := "Вход свободный";
    assert forall i :: 0 <= i < |ok| ==> ok[i] != '\n' && ok[i] != '\r';
  }
}
