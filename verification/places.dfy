/** Places: created by admins; removing one takes its reviews and their photos along. */
module Places {
  import opened Outcomes
  import opened Entities
  import opened AdminAuth
  import Tables

  /** POST /admin/places: the body has exactly the place's fields. */
  function CreatePlace(s: State, key: Option<string>, place: Place): (r: Result<(State, nat)>)
    ensures r.Err? <==> !IsAdmin(key)
    ensures r.Err? ==> r.error == Unauthorized
    ensures r.Ok? ==>
      var (s', id) := r.value;
      && id == s.nextId
      && s'.places.Keys == s.places.Keys + {id}
      && s'.places[id] == place
      && (forall k :: k in s.places && k != id ==> s'.places[k] == s.places[k])
      && s' == s.(places := s'.places, nextId := s'.nextId)
  {
    if !IsAdmin(key) then Err(Unauthorized)
    else Ok((s.(places := s.places[s.nextId := place], nextId := s.nextId + 1), s.nextId))
  }

  /** The ids of the reviews of place `placeId`. */
  function ReviewsOf(s: State, placeId: nat): set<nat> {
    set id | id in s.reviews && s.reviews[id].placeId == placeId
  }

  /** Removing a place row as the relational mapping cascades it: its
      reviews go, and the photos of those reviews go with them. No
      endpoint removes a place; this is the cascade the mapping declares. */
  function DeletePlaceCascade(s: State, placeId: nat): (s': State)
    requires placeId in s.places
    ensures s'.places.Keys == s.places.Keys - {placeId}
    ensures forall k :: k in s'.places ==> s'.places[k] == s.places[k]
    ensures forall id :: id in s'.reviews <==> id in s.reviews && s.reviews[id].placeId != placeId
    ensures forall id :: id in s'.reviews ==> s'.reviews[id] == s.reviews[id]
    ensures forall k :: k in s'.reviewPhotos <==> k in s.reviewPhotos && s.reviewPhotos[k].reviewId !in ReviewsOf(s, placeId)
    ensures forall k :: k in s'.reviewPhotos ==> s'.reviewPhotos[k] == s.reviewPhotos[k]
    ensures s' == s.(places := s'.places, reviews := s'.reviews, reviewPhotos := s'.reviewPhotos)
  {
    var doomed := ReviewsOf(s, placeId);
    var reviews := Tables.DropWhere(s.reviews, (r: Review) => r.placeId == placeId);
    var photos := Tables.DropWhere(s.reviewPhotos, (p: ReviewPhoto) => p.reviewId in doomed);
    s.(places := s.places - {placeId}, reviews := reviews, reviewPhotos := photos)
  }

  /** On a well-formed store the cascade removes exactly the place's reviews
      and their photos, and leaves the store well-formed. */
  lemma DeletePlaceCascadeValid(s: State, placeId: nat)
    requires s.Valid() && placeId in s.places
    ensures var s' := DeletePlaceCascade(s, placeId);
            && s'.Valid()
            && ReviewsOf(s', placeId) == {}
            && (forall id :: id in ReviewsOf(s, placeId) ==> PhotosOf(s', id) == {})
            && (forall id :: id in s.reviews && id !in ReviewsOf(s, placeId) ==> PhotosOf(s', id) == PhotosOf(s, id))
  {
    var s' := DeletePlaceCascade(s, placeId);
    assert s'.IdsIssued();
    assert s'.Linked();
    assert s'.RowsOk();
  }

  lemma CreatePlacePreservesValid(s: State, key: Option<string>, place: Place)
    requires s.Valid()
    ensures var r := CreatePlace(s, key, place); r.Ok? ==> r.value.0.Valid()
  {
  }
}
