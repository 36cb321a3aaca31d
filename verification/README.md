# CHEB-PLACE backend: a Dafny model of the store and its moderation rules

CHEB-PLACE is the backend of a digital map of youth spaces in Cheboksary. It
stores places, visitor reviews with photos, events, a photo gallery and
visitor feedback, and it serves a public API and an admin API that is
guarded by one shared key. This project models that backend as a state
machine. The store is one immutable `Entities.State`. It holds one finite map
per table, from row id to row. It also holds one id counter and a logical
clock that stands in for the database's `created_at` timestamps. Each
endpoint is a pure function from a store and a request to a `Result`. On
success the `Result` holds a new store and a reply. On failure it holds one of
`Validation`, `NotFound` or `Unauthorized`.

Modules, following the structure of `main.py`:

- `Outcomes`: `Option`, the three errors, and `Result`.
- `Entities`: the ORM rows, the store, and the invariant `State.Valid`.
  The invariant covers ids issued by the counter, every child pointing at an
  existing parent, ratings within 1..5, single-line short infos of at most
  255 characters, review-photo URLs under `/static/review_photos/`, and
  creation times earlier than the clock.
- `Media`: uploaded files and the public URLs they get.
- `AdminAuth`: the shared key `change-me-admin-key` and the `X-Admin-Key` check.
- `Tables`: how the queries behave. `Ordered` models ORDER BY, `MinOf`
  models `.first()` of an unordered query, and `DropWhere` models removing
  child rows on cascade.
- `Moderation`: review submission, the public and the pending listings, and
  approval.
- `Gallery`: upload by section name, plus admin section and photo management.
- `Events`: the short-info validator and event create, update, delete and list.
- `Contacts`: feedback submission, listing, and mark-as-read.
- `Places`: place creation and the ORM cascade that removes a place.
- `Navigation`: the fixed five-item menu.
- `Api`: every request as one transition `Handle(store, request)`. It
  answers `(store', response)`, and a failed request keeps the old store.
- `Scenarios`: end-to-end runs: submit, hide, approve, list.

Modelling decisions:

- Error order follows the framework. The admin-key dependency is checked
  before the body is validated. Form and body validation run before the
  handler body.
  So `create_review` checks the form (rating 1..5, non-empty text) first, then
  the place (NotFound), then the file count (more than 5 is Validation).
  `admin_update_event` checks the key, then the body (Validation), then the
  event (NotFound).
- An empty form value counts as a missing one. So an empty review text is
  refused, an empty `author_name` is stored as absent, and an empty
  `section_name` falls back to the default section `Общие`.
- `.first()` without ORDER BY returns the row with the smallest id.
- ORDER BY breaks ties by ascending id.
- Ids come from one counter shared by all tables, and an id is never reused.
- `Validation` stands for both refusals of a malformed request: the framework's 422 for a form or body that fails parsing, and the handlers' own 400 (too many files, no file name).

## Model

| member | source | states |
|---|---|---|
| `Api.Handle` | main.py:244-246 | An admin request whose key is missing or wrong answers Unauthorized and leaves the store unchanged. Unauthorized comes from nothing else. Every failed request and every read-only request leaves the store unchanged. |
| `Api.HandleAdmin` | main.py:444-614 | The key is checked before any admin work. With the right key no admin command answers Unauthorized. A failed or listing command keeps the store. No command but an approval changes the review table. |
| `Api.HandlePublic` | main.py:328-441 | Public requests never answer Unauthorized. A failed submission adds no row. Public listings do not change the store. |
| `Api.FormField` | main.py:331 | An empty optional form value is treated as absent. A non-empty value passes through unchanged. |
| `Api.HandlePreservesValid` | main.py:62-137 | Every request keeps the store invariant. Parents exist, ratings are within 1..5, short infos are single-line and at most 255 characters, ids are fresh, and timestamps are in the past. |
| `Api.HandlePublicPreservesValid` | main.py:328-441 | Each public request keeps the store invariant. |
| `Api.HandleAdminPreservesValid` | main.py:454-614 | Each admin request keeps the store invariant. |
| `Api.EmptyStoreValid` | main.py:140-141 | The empty database that table creation leaves is well-formed. |
| `Api.RunPreservesValid` | main.py:62-137 | Every store reached from a well-formed store by any sequence of requests is well-formed. With the previous row, this covers every store reached from the empty database. |
| `Api.ModerationOneWay` | main.py:454-462 | No request deletes a review or edits anything but its status. Approved never returns to pending. A new review is pending. Only an authorised approval of that very review changes it. |
| `Api.PublicReviewStep` | main.py:328-368 | Public requests never change an existing review and only add pending ones. |
| `Api.AdminReviewStep` | main.py:454-462 | The only admin command that changes a review is the approval of that review, with the right key. |
| `Api.PendingNeverListed` | main.py:376-381 | In every store, a pending review is never in the public listing of any place. So this holds after any sequence of requests. |
| `Moderation.CreateReview` | main.py:328-368 | A bad rating or empty text gives Validation. A valid form with an unknown place gives NotFound. More than 5 files at a known place gives Validation. Otherwise the reply is the fresh id with status pending, and the store is the committed unit of work. |
| `Moderation.Commit` | main.py:345-365 | The committed unit adds exactly the new review under the fresh id. It adds exactly one photo row per file, under the ids after the review, each pointing at the review with a URL in the review-photo folder. Every other row and table is unchanged. |
| `Moderation.PhotoRows` | main.py:355-363 | Each file gives one photo row, which points at the review and carries a URL in the public review-photo folder. |
| `Moderation.CommitCounts` | main.py:345-368 | On a well-formed store the review count grows by one and the photo count grows by the number of files. The new review had no photos before and has exactly one per file after. |
| `Moderation.PhotoCount` | main.py:355-363 | The photo table grows by exactly the number of files. |
| `Moderation.AddedRowsCount` | main.py:355-363 | Adding the new photo rows to a table whose ids are all at most the review id adds exactly one row per file. |
| `Moderation.PhotosOfNew` | main.py:355-363 | The new review's photos are exactly the rows created for its files. |
| `Moderation.CommitPreservesValid` | main.py:345-365 | A commit for an existing place with an in-range rating keeps the store invariant. |
| `Moderation.ListApprovedReviews` | main.py:371-381 | The listing holds exactly the approved reviews of that place, without repeats, in order of creation time with the newest first. |
| `Moderation.ListPendingReviews` | main.py:444-451 | Without the key the answer is Unauthorized. With it, the answer holds exactly the pending reviews, without repeats, newest first. |
| `Moderation.ApproveReview` | main.py:454-462 | Without the key the answer is Unauthorized. An unknown id gives NotFound. Otherwise only that review's status becomes approved, the reply is (id, approved), and nothing else changes. |
| `Moderation.ApproveIdempotent` | main.py:454-462 | Approving twice gives the same store and reply as approving once. |
| `Moderation.ApprovalPublishes` | main.py:376-381 | A pending review is not in its place's public listing. After approval it is. |
| `Moderation.ApprovalPublishesOnlyIt` | main.py:454-462 | Approval changes no other review's membership in any public listing. |
| `Moderation.ApprovePreservesValid` | main.py:454-462 | Approval keeps the store invariant. |
| `Tables.Ordered` | main.py:379 | The result holds exactly the given rows, each once. A row with a higher key comes first, and equal keys are ordered by ascending id. |
| `Tables.FirstExists` | main.py:379 | Every non-empty set of rows has a row that is listed first. |
| `Tables.MinOf` | main.py:404 | The first match of an unordered query is the smallest matching id. |
| `Tables.MinExists` | main.py:404 | Every non-empty set of ids has a least element. |
| `Tables.DropWhere` | main.py:116 | A cascade keeps exactly the rows that are not selected, unchanged. |
| `Tables.IdRange` | main.py:355-363 | The ids after a review, one per file, number exactly as many as the files. |
| `Tables.DisjointAddSize` | main.py:355-363 | Adding rows under new ids adds their number to the table size. |
| `Gallery.FirstSectionNamed` | main.py:404 | It answers none exactly when no section has the name. Otherwise it answers the smallest-id section with that name. |
| `Gallery.UploadGalleryPhoto` | main.py:395-427 | An empty file name gives Validation. Otherwise the photo gets a URL in the gallery folder. It is attached to the first section with that name, and the sections are unchanged. If no section has the name, exactly one new section is created. No other photo changes. |
| `Gallery.UploadSectionCount` | main.py:404-408 | On a well-formed store the section count is unchanged when the name exists and grows by one when it does not. The photo count grows by one. |
| `Gallery.CreateSection` | main.py:513-519 | Without the key the answer is Unauthorized. Otherwise one section with the given name is added under the next id. On a store whose ids were all issued by the counter, that id is fresh and the section count grows by one. No other section changes. |
| `Gallery.AddGalleryPhoto` | main.py:528-537 | The key is checked first, then an unknown section gives NotFound. Otherwise one photo with the URL as given is added to that section under the next id. On a store whose ids were all issued by the counter, that id is fresh and the photo count grows by one. No other photo changes. |
| `Gallery.RenameSection` | main.py:570-578 | The key is checked first, then an unknown section gives NotFound. Otherwise only that section's name changes. |
| `Gallery.DeleteSection` | main.py:581-588 | The key is checked first, then an unknown section gives NotFound. Otherwise the section and exactly the photos filed under it are removed, and nothing else changes. |
| `Gallery.DeleteSectionCascades` | main.py:116 | After a section delete it has no photos left, and every other section keeps all of its photos. |
| `Gallery.DeleteGalleryPhoto` | main.py:591-598 | The key is checked first, then an unknown photo gives NotFound. Otherwise exactly that photo is removed. |
| `Gallery.UploadPreservesValid` | main.py:395-427 | An upload keeps the store invariant. |
| `Gallery.CreateSectionPreservesValid` | main.py:513-519 | Section creation keeps the store invariant. |
| `Gallery.AddGalleryPhotoPreservesValid` | main.py:528-537 | Attaching a photo keeps every photo pointing at an existing section. |
| `Gallery.RenameSectionPreservesValid` | main.py:570-578 | Renaming keeps the store invariant. |
| `Gallery.DeleteSectionPreservesValid` | main.py:581-588 | A section delete leaves no photo pointing at the removed section. |
| `Gallery.DeleteGalleryPhotoPreservesValid` | main.py:591-598 | A photo delete keeps the store invariant. |
| `Events.ValidateShortInfo` | main.py:488-492 | The value is accepted exactly when it has no line feed and no carriage return, and it is then returned unchanged. Otherwise the answer is Validation. |
| `Events.ValidateEvent` | main.py:482-492 | A body is accepted exactly when its short info is at most 255 characters and on a single line. |
| `Events.CreateEvent` | main.py:495-506 | The key is checked first, then an invalid short info gives Validation. Otherwise exactly one event with the body's four fields is added. |
| `Events.UpdateEvent` | main.py:546-557 | The key is checked first, then the body (Validation), then the id (NotFound). Otherwise exactly that event's four fields are overwritten, and nothing else changes. |
| `Events.UpdateIdempotent` | main.py:546-557 | Updating twice with the same body gives the same store as updating once. |
| `Events.DeleteEvent` | main.py:560-567 | The key is checked first, then an unknown id gives NotFound. Otherwise exactly that event is removed. |
| `Events.ListEvents` | main.py:384-386 | Every event appears exactly once, in ascending date order. |
| `Events.AdminListEvents` | main.py:540-543 | Without the key the answer is Unauthorized. With it, the answer is the same listing as the public one. |
| `Events.CreateEventPreservesValid` | main.py:495-506 | Every stored event stays single-line and within 255 characters. |
| `Events.UpdateEventPreservesValid` | main.py:546-557 | An update keeps every stored short info valid. |
| `Events.DeleteEventPreservesValid` | main.py:560-567 | A delete keeps the store invariant. |
| `Contacts.CreateFeedback` | main.py:430-441 | Exactly one message is added under a fresh id. It is unread and stamped with the current time, and the clock advances. |
| `Contacts.MarkFeedbackRead` | main.py:606-614 | The key is checked first, then an unknown id gives NotFound. Otherwise only that message's read flag becomes true, and the reply flag is true. |
| `Contacts.MarkReadIdempotent` | main.py:606-614 | Marking a message read twice gives the same store and reply as marking it once. |
| `Contacts.ListFeedback` | main.py:601-603 | Without the key the answer is Unauthorized. With it, every message appears exactly once, newest first. |
| `Contacts.ContactsPreserveValid` | main.py:430-441 | Feedback submission and mark-read keep the store invariant. |
| `Places.CreatePlace` | main.py:473-479 | Without the key the answer is Unauthorized. Otherwise exactly one place with the given fields is added. |
| `Places.CreatePlacePreservesValid` | main.py:473-479 | Place creation keeps the store invariant. |
| `Places.DeletePlaceCascade` | main.py:72-87 | Removing a place removes exactly its reviews and the photos of those reviews, and leaves every other row unchanged. |
| `Places.DeletePlaceCascadeValid` | main.py:72-87 | On a well-formed store the cascade leaves no review of the place and no photo of its reviews. The photos of other reviews are kept, and the store stays well-formed. |
| `Navigation.GetNavigation` | main.py:307-320 | The menu is the five fixed items in their order. An item is active exactly when its id equals the requested one, and at most one item is active. |
| `Media.ReviewPhotoUrl` | main.py:361 | A stored review photo's URL lies in `/static/review_photos/`. |
| `Media.GalleryPhotoUrl` | main.py:415 | A visitor upload gets a URL in `/static/gallery_photos/`. Photos an admin attaches keep the URL exactly as given, which may be any string (`Gallery.AddGalleryPhoto`), so the invariant says nothing about gallery URLs. |
| `Scenarios.ReviewLifecycle` | main.py:328-462 | A two-photo review at a place with no visible reviews is pending and not listed. After approval it is the place's only listed review and has both photos. |
| `Scenarios.OversizedSubmissionRejected` | main.py:332-343 | Six files, a rating of 0 or 6, or an empty text gives Validation, and the store is unchanged. |
| `Scenarios.MultiLineEventRejected` | main.py:488-506 | A short info with a line feed is refused and the store is unchanged. The same text without the line feed is stored, and the event is listed. |
| `Scenarios.SubmissionStaysHidden` | main.py:345-351 | A submission does not change which reviews are publicly visible. |
| `Scenarios.ApprovedAlone` | main.py:454-462 | Approving a review at a place with no visible review makes it the only one listed there. The photos are unchanged. |
| `Scenarios.OnlyVisible` | main.py:376-381 | A place whose only visible review is `id` lists exactly `[id]`. |
| `Scenarios.EmptyListing` | main.py:376-381 | A place's listing is empty exactly when none of its reviews is visible. |

## Left out

- HTTP routing, the HTML page handlers, CORS, the static mount, startup and `uvicorn` (main.py:249-305, 617-620) are framework wiring.
- The SQLAlchemy engine, session, commit and refresh are not modelled. Each request is one atomic transition.
- Writing uploaded bytes to disk is not modelled. File names built from `datetime.utcnow().timestamp()` and `Path.suffix` are not modelled either. An `Upload` carries the name its file was stored under, and only the folder prefix of the URL is modelled.
- `func.now()` is replaced by a logical clock that advances with every timestamped insert.
- Ids come from one counter shared by all tables, and the counter never reuses an id. SQLite gives a new row the largest id of its own table plus one. So in the source, deleting the newest event, section or gallery photo and then creating another reuses the deleted id. The model never does.
- Replies carry ids instead of the serialised records. ORM-to-schema serialisation is left out, including the nested photo lists and the `HttpUrl` check on `cover_url` in the `EventOut` response model.
- `list_places` and `get_gallery` are plain reads of whole tables and are not modelled.
- Parsing of typed form and body fields is not modelled. A non-integer rating or id, a missing required JSON field, or a body that is not JSON at all is rejected by the framework with 422. The handler never runs. The body is read and decoded before the admin key is checked, so an admin request with a wrong key and an undecodable body answers 422, not 401. The model takes typed, decoded inputs. Ids are `nat`. A negative id in the source matches no row, so it gets the same NotFound as an unknown id.
- Ids at or above 2^63 are not modelled. SQLite integers are 64-bit. A path or form id this large makes the database driver raise an overflow error, and the source answers 500. The model's ids are unbounded, so the NotFound clauses of `Moderation.CreateReview`, `Moderation.ApproveReview`, `Events.UpdateEvent`, `Events.DeleteEvent`, `Gallery.AddGalleryPhoto`, `Gallery.RenameSection`, `Gallery.DeleteSection`, `Gallery.DeleteGalleryPhoto` and `Contacts.MarkFeedbackRead` also cover ids where the source fails with 500.
- Concurrent requests are not modelled. Two simultaneous uploads with the same new section name could create two sections. The model is sequential.
- Dates are day ordinals, not calendar triples. Only their order matters.
- `Tables.Ordered`: for rows with equal sort keys, SQL leaves the order unspecified. The model fixes ascending id.
