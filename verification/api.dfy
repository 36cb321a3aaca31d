/** The HTTP surface as one transition: every request takes the store to a
    new store and a response. A failed request leaves the store as it was. */
module Api {
  import opened Outcomes
  import opened Entities
  import opened Media
  import opened AdminAuth
  import M = Moderation
  import G = Gallery
  import E = Events
  import C = Contacts
  import P = Places

  datatype PublicRequest =
    | SubmitReview(placeId: nat, authorName: Option<string>, rating: int, text: string, files: seq<Upload>)
    | ListReviews(placeId: nat)
    | ListEvents
    | UploadPhoto(file: Upload, sectionName: Option<string>)
    | SubmitFeedback(input: C.FeedbackInput)

  datatype AdminCommand =
    | ListPending
    | Approve(reviewId: nat)
    | CreatePlace(place: Place)
    | CreateEvent(event: E.EventInput)
    | ListAllEvents
    | UpdateEvent(eventId: nat, event: E.EventInput)
    | DeleteEvent(eventId: nat)
    | CreateSection(name: string)
    | RenameSection(sectionId: nat, name: string)
    | DeleteSection(sectionId: nat)
    | AddPhoto(sectionId: nat, url: string)
    | DeletePhoto(photoId: nat)
    | ListFeedback
    | MarkRead(feedbackId: nat)

  datatype Request =
    | Public(req: PublicRequest)
    | Admin(key: Option<string>, cmd: AdminCommand)

  /** What a successful request answers. */
  datatype Reply =
    | Status(id: nat, status: ReviewStatus)
    | Listing(ids: seq<nat>)
    | Created(id: nat)
    | Deleted(id: nat)
    | Updated(id: nat)
    | Uploaded(upload: G.UploadReply)
    | ReadFlag(id: nat, isRead: bool)

  datatype Response = Failed(error: Error) | Done(reply: Reply)

  /** The request only reads the store. */
  predicate IsQuery(req: Request) {
    match req
    case Public(p) => p.ListReviews? || p.ListEvents?
    case Admin(_, c) => c.ListPending? || c.ListAllEvents? || c.ListFeedback?
  }

  /** A transition's outcome as a store and a response: a failure keeps the old store. */
  function Lift<T>(s: State, r: Result<(State, T)>, reply: T -> Reply): (out: (State, Response))
    ensures r.Err? ==> out == (s, Failed(r.error))
    ensures r.Ok? ==> out.0 == r.value.0 && out.1.Done?
  {
    match r
    case Ok((s', x)) => (s', Done(reply(x)))
    case Err(e) => (s, Failed(e))
  }

  function LiftState(s: State, r: Result<State>, reply: Reply): (out: (State, Response))
    ensures r.Err? ==> out == (s, Failed(r.error))
    ensures r.Ok? ==> out.0 == r.value && out.1.Done?
  {
    match r
    case Ok(s') => (s', Done(reply))
    case Err(e) => (s, Failed(e))
  }

  /** A listing's outcome: the store never changes, the response fails exactly
      when the listing did, and a success carries the listed ids. */
  function LiftQuery(s: State, r: Result<seq<nat>>): (out: (State, Response))
    ensures out.0 == s
    ensures out.1.Failed? <==> r.Err?
    ensures out.1.Failed? ==> out.1.error == r.error
    ensures out.1.Done? ==> out.1.reply.Listing? && out.1.reply.ids == r.value
  {
    match r
    case Ok(ids) => (s, Done(Listing(ids)))
    case Err(e) => (s, Failed(e))
  }

  /** An optional form field as the handler sees it: an empty value counts as absent. */
  function FormField(v: Option<string>): (r: Option<string>)
    ensures r.Some? ==> v == r && r.value != ""
    ensures v.Some? && v.value != "" ==> r == v
  {
    if v == Some("") then None else v
  }

  /** A request of the public surface; none of them can fail with Unauthorized. */
  function HandlePublic(s: State, p: PublicRequest): (r: (State, Response))
    ensures r.1.Failed? ==> r.0 == s && r.1.error != Unauthorized
    ensures p.ListReviews? || p.ListEvents? ==> r.0 == s
  {
    match p
    case SubmitReview(placeId, author, rating, text, files) =>
      Lift(s, M.CreateReview(s, placeId, FormField(author), rating, text, files),
           (x: M.StatusReply) => Status(x.id, x.status))
    case ListReviews(placeId) => (s, Done(Listing(M.ListApprovedReviews(s, placeId))))
    case ListEvents => (s, Done(Listing(E.ListEvents(s))))
    case UploadPhoto(file, name) =>
      Lift(s, G.UploadGalleryPhoto(s, file, FormField(name).GetOr(G.DefaultSectionName)),
           (x: G.UploadReply) => Uploaded(x))
    case SubmitFeedback(input) =>
      var (s', id) := C.CreateFeedback(s, input);
      (s', Done(Created(id)))
  }

  /** A request of the admin surface: the key is checked before anything else. */
  function HandleAdmin(s: State, key: Option<string>, c: AdminCommand): (r: (State, Response))
    ensures !IsAdmin(key) ==> r == (s, Failed(Unauthorized))
    ensures IsAdmin(key) ==> r.1 != Failed(Unauthorized)
    ensures r.1.Failed? ==> r.0 == s
    ensures c.ListPending? || c.ListAllEvents? || c.ListFeedback? ==> r.0 == s
    ensures !c.Approve? ==> r.0.reviews == s.reviews
  {
    match c
    case ListPending => LiftQuery(s, M.ListPendingReviews(s, key))
    case Approve(id) => Lift(s, M.ApproveReview(s, key, id), (x: M.StatusReply) => Status(x.id, x.status))
    case CreatePlace(place) => Lift(s, P.CreatePlace(s, key, place), (id: nat) => Created(id))
    case CreateEvent(input) => Lift(s, E.CreateEvent(s, key, input), (id: nat) => Created(id))
    case ListAllEvents => LiftQuery(s, E.AdminListEvents(s, key))
    case UpdateEvent(id, input) => LiftState(s, E.UpdateEvent(s, key, id, input), Updated(id))
    case DeleteEvent(id) => LiftState(s, E.DeleteEvent(s, key, id), Deleted(id))
    case CreateSection(name) => Lift(s, G.CreateSection(s, key, name), (id: nat) => Created(id))
    case RenameSection(id, name) => LiftState(s, G.RenameSection(s, key, id, name), Updated(id))
    case DeleteSection(id) => LiftState(s, G.DeleteSection(s, key, id), Deleted(id))
    case AddPhoto(sectionId, url) => Lift(s, G.AddGalleryPhoto(s, key, sectionId, url), (id: nat) => Created(id))
    case DeletePhoto(id) => LiftState(s, G.DeleteGalleryPhoto(s, key, id), Deleted(id))
    case ListFeedback => LiftQuery(s, C.ListFeedback(s, key))
    case MarkRead(id) => Lift(s, C.MarkFeedbackRead(s, key, id), (b: bool) => ReadFlag(id, b))
  }

  /** One request against the store. A failed request leaves the store as it
      was; a wrong or missing key on an admin request fails with
      Unauthorized before anything else happens. */
  function Handle(s: State, req: Request): (r: (State, Response))
    ensures r.1.Failed? ==> r.0 == s
    ensures IsQuery(req) ==> r.0 == s
    ensures req.Admin? && !IsAdmin(req.key) ==> r == (s, Failed(Unauthorized))
    ensures r.1 == Failed(Unauthorized) ==> req.Admin? && !IsAdmin(req.key)
  {
    match req
    case Public(p) => HandlePublic(s, p)
    case Admin(key, c) => HandleAdmin(s, key, c)
  }

  /** The store after a sequence of requests. */
  function Run(s: State, reqs: seq<Request>): State
    decreases |reqs|
  {
    if reqs == [] then s else Run(Handle(s, reqs[0]).0, reqs[1..])
  }

  lemma HandlePublicPreservesValid(s: State, p: PublicRequest)
    requires s.Valid()
    ensures HandlePublic(s, p).0.Valid()
  {
    match p
    case SubmitReview(placeId, author, rating, text, files) =>
      if M.CreateReview(s, placeId, FormField(author), rating, text, files).Ok? {
        M.CommitPreservesValid(s, Review(placeId, FormField(author), rating, text, Pending, s.clock), files);
      }
    case ListReviews(_) =>
    case ListEvents =>
    case UploadPhoto(file, name) => G.UploadPreservesValid(s, file, FormField(name).GetOr(G.DefaultSectionName));
    case SubmitFeedback(input) => C.ContactsPreserveValid(s, None, input, 0);
  }

  lemma HandleAdminPreservesValid(s: State, key: Option<string>, c: AdminCommand)
    requires s.Valid()
    ensures HandleAdmin(s, key, c).0.Valid()
  {
    match c
    case ListPending =>
    case Approve(id) => M.ApprovePreservesValid(s, key, id);
    case CreatePlace(place) => P.CreatePlacePreservesValid(s, key, place);
    case CreateEvent(input) => E.CreateEventPreservesValid(s, key, input);
    case ListAllEvents =>
    case UpdateEvent(id, input) => E.UpdateEventPreservesValid(s, key, id, input);
    case DeleteEvent(id) => E.DeleteEventPreservesValid(s, key, id);
    case CreateSection(name) => G.CreateSectionPreservesValid(s, key, name);
    case RenameSection(id, name) => G.RenameSectionPreservesValid(s, key, id, name);
    case DeleteSection(id) => G.DeleteSectionPreservesValid(s, key, id);
    case AddPhoto(sectionId, url) => G.AddGalleryPhotoPreservesValid(s, key, sectionId, url);
    case DeletePhoto(id) => G.DeleteGalleryPhotoPreservesValid(s, key, id);
    case ListFeedback =>
    case MarkRead(id) => C.ContactsPreserveValid(s, key, C.FeedbackInput("", None, ""), id);
  }

  /** Every request keeps every store invariant. */
  lemma HandlePreservesValid(s: State, req: Request)
    requires s.Valid()
    ensures Handle(s, req).0.Valid()
  {
    match req
    case Public(p) => HandlePublicPreservesValid(s, p);
    case Admin(key, c) => HandleAdminPreservesValid(s, key, c);
  }

  /** The empty database is well-formed. */
  lemma EmptyStoreValid()
    ensures EmptyStore.Valid()
  {
  }

  /** Every store reached from a well-formed one, the empty database among
      them, is well-formed. */
  lemma {:induction false} RunPreservesValid(s: State, reqs: seq<Request>)
    requires s.Valid()
    ensures Run(s, reqs).Valid()
    decreases |reqs|
  {
    if reqs != [] {
      HandlePreservesValid(s, reqs[0]);
      RunPreservesValid(Handle(s, reqs[0]).0, reqs[1..]);
    }
  }

  /** How a request may change one review row: it keeps it, or (for a
      new id) adds it pending, or approves it. */
  predicate ReviewStep(s: State, s': State, id: nat) {
    && (id in s.reviews ==> id in s'.reviews && s'.reviews[id] == s.reviews[id].(status := s'.reviews[id].status))
    && (id in s.reviews && s.reviews[id].status == Approved ==> s'.reviews[id].status == Approved)
    && (id in s'.reviews && id !in s.reviews ==> s'.reviews[id].status == Pending)
  }

  lemma PublicReviewStep(s: State, p: PublicRequest, id: nat)
    requires s.IdsIssued()
    ensures var s' := HandlePublic(s, p).0;
            && ReviewStep(s, s', id)
            && (id in s.reviews ==> s'.reviews[id] == s.reviews[id])
  {
    match p
    case SubmitReview(placeId, author, rating, text, files) =>
      assert s.nextId !in s.reviews;
    case _ =>
      assert HandlePublic(s, p).0.reviews == s.reviews;
  }

  lemma AdminReviewStep(s: State, key: Option<string>, c: AdminCommand, id: nat)
    ensures var s' := HandleAdmin(s, key, c).0;
            && ReviewStep(s, s', id)
            && (id in s.reviews && s'.reviews[id] != s.reviews[id] ==> IsAdmin(key) && c == Approve(id))
  {
  }

  /** Moderation is one-way: no request removes a review or edits anything
      but its status, no request takes an approved review back to pending, a
      review that appears is pending, and only an authorised approval of
      that very review changes it. */
  lemma ModerationOneWay(s: State, req: Request, id: nat)
    requires s.Valid()
    ensures ReviewStep(s, Handle(s, req).0, id)
    ensures id in s.reviews && Handle(s, req).0.reviews[id] != s.reviews[id] ==>
              req.Admin? && IsAdmin(req.key) && req.cmd == Approve(id)
  {
    match req
    case Public(p) => PublicReviewStep(s, p, id);
    case Admin(key, c) => AdminReviewStep(s, key, c, id);
  }

  /** In every store, so after any sequence of requests, a pending review is
      never listed publicly. */
  lemma PendingNeverListed(s: State, placeId: nat, id: nat)
    ensures id in s.reviews && s.reviews[id].status == Pending ==> id !in M.ListApprovedReviews(s, placeId)
  {
  }
}
