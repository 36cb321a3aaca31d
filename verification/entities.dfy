/** The stored entities of the map backend and the store that holds them.
    Each table is a finite map from row id to row; ids come from one counter
    and creation times from a logical clock. */
module Entities {
  import opened Outcomes
  import opened Media

  const MinRating: int := 1
  const MaxRating: int := 5
  /** At most this many photos may accompany one review. */
  const MaxReviewPhotos: nat := 5
  /** Column width of `Event.short_info`, also enforced on input. */
  const MaxShortInfoLength: nat := 255

  datatype ReviewStatus = Pending | Approved

  datatype Place = Place(
    name: string,
    category: string,
    lat: string,        // kept as text, never parsed
    lng: string,
    description: Option<string>)

  datatype Review = Review(
    placeId: nat,
    authorName: Option<string>,
    rating: int,
    text: string,
    status: ReviewStatus,
    createdAt: nat)

  datatype ReviewPhoto = ReviewPhoto(reviewId: nat, url: string)

  /** `date` is a calendar date as its proleptic day ordinal. */
  datatype Event = Event(title: string, date: int, shortInfo: string, coverUrl: Option<string>)

  datatype GallerySection = GallerySection(name: string)

  datatype GalleryPhoto = GalleryPhoto(sectionId: nat, url: string)

  datatype Feedback = Feedback(
    name: string,
    contact: Option<string>,
    message: string,
    isRead: bool,
    createdAt: nat)

  predicate RatingInRange(rating: int) {
    MinRating <= rating <= MaxRating
  }

  /** Contains neither a line feed nor a carriage return. */
  predicate SingleLine(v: string) {
    '\n' !in v && '\r' !in v
  }

  /** What an event's short info must satisfy to be stored. */
  predicate ShortInfoOk(v: string) {
    |v| <= MaxShortInfoLength && SingleLine(v)
  }

  datatype State = State(
    places: map<nat, Place>,
    reviews: map<nat, Review>,
    reviewPhotos: map<nat, ReviewPhoto>,
    events: map<nat, Event>,
    sections: map<nat, GallerySection>,
    galleryPhotos: map<nat, GalleryPhoto>,
    feedback: map<nat, Feedback>,
    nextId: nat,
    clock: nat)
  {
    /** Every row id was issued by the counter, so `nextId` is fresh in every table. */
    predicate IdsIssued() {
      && (forall id :: id in places ==> id < nextId)
      && (forall id :: id in reviews ==> id < nextId)
      && (forall id :: id in reviewPhotos ==> id < nextId)
      && (forall id :: id in events ==> id < nextId)
      && (forall id :: id in sections ==> id < nextId)
      && (forall id :: id in galleryPhotos ==> id < nextId)
      && (forall id :: id in feedback ==> id < nextId)
    }

    /** Referential integrity: every child row points at an existing parent. */
    predicate Linked() {
      && (forall id :: id in reviews ==> reviews[id].placeId in places)
      && (forall id :: id in reviewPhotos ==> reviewPhotos[id].reviewId in reviews)
      && (forall id :: id in galleryPhotos ==> galleryPhotos[id].sectionId in sections)
    }

    /** Column constraints every stored row satisfies; review photos live in the public review-photo folder. */
    predicate RowsOk() {
      && (forall id :: id in reviews ==> RatingInRange(reviews[id].rating) && reviews[id].createdAt < clock)
      && (forall id :: id in reviewPhotos ==> InReviewFolder(reviewPhotos[id].url))
      && (forall id :: id in events ==> ShortInfoOk(events[id].shortInfo))
      && (forall id :: id in feedback ==> feedback[id].createdAt < clock)
    }

    predicate Valid() {
      IdsIssued() && Linked() && RowsOk()
    }
  }

  /** The store of a freshly created database. */
  const EmptyStore: State := State(map[], map[], map[], map[], map[], map[], map[], 0, 0)

  /** The ids of the photos attached to review `reviewId`. */
  function PhotosOf(s: State, reviewId: nat): set<nat> {
    set k | k in s.reviewPhotos && s.reviewPhotos[k].reviewId == reviewId
  }

  /** The ids of the photos filed under gallery section `sectionId`. */
  function SectionPhotos(s: State, sectionId: nat): set<nat> {
    set k | k in s.galleryPhotos && s.galleryPhotos[k].sectionId == sectionId
  }
}
