/** The photo gallery: named sections holding photos. Visitors upload into a
    section by name; admins manage sections and photos. */
module Gallery {
  import opened Outcomes
  import opened Entities
  import opened Media
  import opened AdminAuth
  import Tables

  /** The section name a visitor upload uses when the form gives none. */
  const DefaultSectionName: string := "Общие"

  /** The reply to a visitor upload. */
  datatype UploadReply = UploadReply(photoId: nat, url: string, sectionId: nat, sectionName: string)

  /** The section an unordered lookup by name returns first: the oldest one with that name. */
  function FirstSectionNamed(sections: map<nat, GallerySection>, name: string): (r: Option<nat>)
    ensures r.None? <==> forall k :: k in sections ==> sections[k].name != name
    ensures r.Some? ==> r.value in sections && sections[r.value].name == name
    ensures r.Some? ==> forall k :: k in sections && sections[k].name == name ==> r.value <= k
  {
    var named := set k | k in sections && sections[k].name == name;
    assert forall k :: k in sections && sections[k].name == name ==> k in named;
    if named == {} then None else Some(Tables.MinOf(named))
  }

  /** The store with a new photo row under section `sectionId`; the new photo's id.
      The id is the next one the counter issues, so on a store whose ids were
      all issued by the counter it is fresh and the table grows by one row. */
  function AddPhoto(s: State, sectionId: nat, url: string): (r: (State, nat))
    ensures r.1 == s.nextId && r.0.nextId > r.1
    ensures r.0.galleryPhotos.Keys == s.galleryPhotos.Keys + {r.1}
    ensures r.0.galleryPhotos[r.1] == GalleryPhoto(sectionId, url)
    ensures forall k :: k in s.galleryPhotos && k != r.1 ==> r.0.galleryPhotos[k] == s.galleryPhotos[k]
    ensures s.IdsIssued() ==> r.1 !in s.galleryPhotos
    ensures r.1 !in s.galleryPhotos ==> |r.0.galleryPhotos| == |s.galleryPhotos| + 1
    ensures r.0 == s.(galleryPhotos := r.0.galleryPhotos, nextId := r.0.nextId)
  {
    var id := s.nextId;
    var photos := s.galleryPhotos[id := GalleryPhoto(sectionId, url)];
    Tables.AddFreshSize(s.galleryPhotos, id, GalleryPhoto(sectionId, url));
    (s.(galleryPhotos := photos, nextId := id + 1), id)
  }

  /** The store with a new section named `name`; the new section's id, fresh
      on a store whose ids were all issued by the counter. */
  function AddSection(s: State, name: string): (r: (State, nat))
    ensures r.1 == s.nextId && r.0.nextId > r.1
    ensures r.0.sections.Keys == s.sections.Keys + {r.1}
    ensures r.0.sections[r.1] == GallerySection(name)
    ensures forall k :: k in s.sections && k != r.1 ==> r.0.sections[k] == s.sections[k]
    ensures s.IdsIssued() ==> r.1 !in s.sections
    ensures r.1 !in s.sections ==> |r.0.sections| == |s.sections| + 1
    ensures r.0 == s.(sections := r.0.sections, nextId := r.0.nextId)
  {
    var id := s.nextId;
    var sections := s.sections[id := GallerySection(name)];
    Tables.AddFreshSize(s.sections, id, GallerySection(name));
    (s.(sections := sections, nextId := id + 1), id)
  }

  /** POST /gallery/upload: store the file under the first section called
      `sectionName`, creating that section when there is none. */
  function UploadGalleryPhoto(s: State, file: Upload, sectionName: string): (r: Result<(State, UploadReply)>)
    ensures r.Err? <==> file.filename == ""
    ensures r.Err? ==> r.error == Validation
    ensures r.Ok? ==>
      var (s', reply) := r.value;
      && reply.sectionName == sectionName
      && InGalleryFolder(reply.url)
      && reply.sectionId in s'.sections && s'.sections[reply.sectionId].name == sectionName
      && (s.IdsIssued() ==> reply.photoId !in s.galleryPhotos)
    ensures r.Ok? ==>
      var (s', reply) := r.value;
      && s'.galleryPhotos.Keys == s.galleryPhotos.Keys + {reply.photoId}
      && s'.galleryPhotos[reply.photoId] == GalleryPhoto(reply.sectionId, reply.url)
      && (forall k :: k in s.galleryPhotos && k != reply.photoId ==> s'.galleryPhotos[k] == s.galleryPhotos[k])
      && s' == s.(sections := s'.sections, galleryPhotos := s'.galleryPhotos, nextId := s'.nextId)
    ensures r.Ok? && FirstSectionNamed(s.sections, sectionName).Some? ==>
      var (s', reply) := r.value;
      && reply.sectionId == FirstSectionNamed(s.sections, sectionName).value
      && s'.sections == s.sections
    ensures r.Ok? && FirstSectionNamed(s.sections, sectionName).None? ==>
      var (s', reply) := r.value;
      && reply.sectionId == s.nextId
      && s'.sections == s.sections[s.nextId := GallerySection(sectionName)]
  {
    if file.filename == "" then Err(Validation)
    else
      var (s1, sectionId) :=
        match FirstSectionNamed(s.sections, sectionName)
        case Some(id) => (s, id)
        case None => AddSection(s, sectionName);
      var url := GalleryPhotoUrl(file);
      var (s2, photoId) := AddPhoto(s1, sectionId, url);
      Ok((s2, UploadReply(photoId, url, sectionId, sectionName)))
  }

  /** On a well-formed store an upload to an existing name keeps the number
      of sections, and an upload to a new name adds exactly one section. */
  lemma UploadSectionCount(s: State, file: Upload, sectionName: string)
    requires s.Valid()
    requires UploadGalleryPhoto(s, file, sectionName).Ok?
    ensures var s' := UploadGalleryPhoto(s, file, sectionName).value.0;
            && ((exists k :: k in s.sections && s.sections[k].name == sectionName) ==> |s'.sections| == |s.sections|)
            && ((forall k :: k in s.sections ==> s.sections[k].name != sectionName) ==> |s'.sections| == |s.sections| + 1)
            && |s'.galleryPhotos| == |s.galleryPhotos| + 1
  {
    var (s', reply) := UploadGalleryPhoto(s, file, sectionName).value;
    if FirstSectionNamed(s.sections, sectionName).None? {
      assert s.nextId !in s.sections;
    }
    assert reply.photoId !in s.galleryPhotos;
  }

  /** POST /admin/gallery/sections. */
  function CreateSection(s: State, key: Option<string>, name: string): (r: Result<(State, nat)>)
    ensures r.Err? <==> !IsAdmin(key)
    ensures r.Err? ==> r.error == Unauthorized
    ensures r.Ok? ==>
      var (s', id) := r.value;
      && id == s.nextId
      && s'.sections.Keys == s.sections.Keys + {id}
      && s'.sections[id] == GallerySection(name)
      && (forall k :: k in s.sections && k != id ==> s'.sections[k] == s.sections[k])
      && (s.IdsIssued() ==> id !in s.sections && |s'.sections| == |s.sections| + 1)
      && s' == s.(sections := s'.sections, nextId := s'.nextId)
  {
    if !IsAdmin(key) then Err(Unauthorized)
    else Ok(AddSection(s, name))
  }

  /** POST /admin/gallery/photos: attach a photo by URL to an existing section. */
  function AddGalleryPhoto(s: State, key: Option<string>, sectionId: nat, url: string): (r: Result<(State, nat)>)
    ensures r == Err(Unauthorized) <==> !IsAdmin(key)
    ensures r == Err(NotFound) <==> IsAdmin(key) && sectionId !in s.sections
    ensures r.Ok? <==> IsAdmin(key) && sectionId in s.sections
    ensures r.Ok? ==>
      var (s', id) := r.value;
      && id == s.nextId
      && s'.galleryPhotos.Keys == s.galleryPhotos.Keys + {id}
      && s'.galleryPhotos[id] == GalleryPhoto(sectionId, url)
      && (forall k :: k in s.galleryPhotos && k != id ==> s'.galleryPhotos[k] == s.galleryPhotos[k])
      && (s.IdsIssued() ==> id !in s.galleryPhotos && |s'.galleryPhotos| == |s.galleryPhotos| + 1)
      && s' == s.(galleryPhotos := s'.galleryPhotos, nextId := s'.nextId)
  {
    if !IsAdmin(key) then Err(Unauthorized)
    else if sectionId !in s.sections then Err(NotFound)
    else Ok(AddPhoto(s, sectionId, url))
  }

  /** PUT /admin/gallery/sections/{id}. */
  function RenameSection(s: State, key: Option<string>, sectionId: nat, name: string): (r: Result<State>)
    ensures r == Err(Unauthorized) <==> !IsAdmin(key)
    ensures r == Err(NotFound) <==> IsAdmin(key) && sectionId !in s.sections
    ensures r.Ok? <==> IsAdmin(key) && sectionId in s.sections
    ensures r.Ok? ==>
      && r.value.sections.Keys == s.sections.Keys
      && r.value.sections[sectionId] == GallerySection(name)
      && (forall k :: k in s.sections && k != sectionId ==> r.value.sections[k] == s.sections[k])
      && r.value == s.(sections := r.value.sections)
  {
    if !IsAdmin(key) then Err(Unauthorized)
    else if sectionId !in s.sections then Err(NotFound)
    else Ok(s.(sections := s.sections[sectionId := GallerySection(name)]))
  }

  /** DELETE /admin/gallery/sections/{id}: the section goes, and with it every photo filed under it. */
  function DeleteSection(s: State, key: Option<string>, sectionId: nat): (r: Result<State>)
    ensures r == Err(Unauthorized) <==> !IsAdmin(key)
    ensures r == Err(NotFound) <==> IsAdmin(key) && sectionId !in s.sections
    ensures r.Ok? <==> IsAdmin(key) && sectionId in s.sections
    ensures r.Ok? ==>
      && r.value.sections.Keys == s.sections.Keys - {sectionId}
      && (forall k :: k in r.value.sections ==> r.value.sections[k] == s.sections[k])
      && (forall k :: k in r.value.galleryPhotos <==> k in s.galleryPhotos && s.galleryPhotos[k].sectionId != sectionId)
      && (forall k :: k in r.value.galleryPhotos ==> r.value.galleryPhotos[k] == s.galleryPhotos[k])
      && r.value == s.(sections := r.value.sections, galleryPhotos := r.value.galleryPhotos)
  {
    if !IsAdmin(key) then Err(Unauthorized)
    else if sectionId !in s.sections then Err(NotFound)
    else
      Ok(s.(sections := s.sections - {sectionId},
            galleryPhotos := Tables.DropWhere(s.galleryPhotos, (p: GalleryPhoto) => p.sectionId == sectionId)))
  }

  /** After a section is deleted none of its photos remain, and no photo
      of any other section is lost. */
  lemma DeleteSectionCascades(s: State, key: Option<string>, sectionId: nat)
    requires DeleteSection(s, key, sectionId).Ok?
    ensures var s' := DeleteSection(s, key, sectionId).value;
            && SectionPhotos(s', sectionId) == {}
            && (forall other :: other != sectionId ==> SectionPhotos(s', other) == SectionPhotos(s, other))
  {
  }

  /** DELETE /admin/gallery/photos/{id}. */
  function DeleteGalleryPhoto(s: State, key: Option<string>, photoId: nat): (r: Result<State>)
    ensures r == Err(Unauthorized) <==> !IsAdmin(key)
    ensures r == Err(NotFound) <==> IsAdmin(key) && photoId !in s.galleryPhotos
    ensures r.Ok? <==> IsAdmin(key) && photoId in s.galleryPhotos
    ensures r.Ok? ==>
      && r.value.galleryPhotos.Keys == s.galleryPhotos.Keys - {photoId}
      && (forall k :: k in r.value.galleryPhotos ==> r.value.galleryPhotos[k] == s.galleryPhotos[k])
      && r.value == s.(galleryPhotos := r.value.galleryPhotos)
  {
    if !IsAdmin(key) then Err(Unauthorized)
    else if photoId !in s.galleryPhotos then Err(NotFound)
    else Ok(s.(galleryPhotos := s.galleryPhotos - {photoId}))
  }

  /** Every gallery operation keeps every store invariant; in particular a
      section delete leaves no photo pointing at the removed section. */
  /** A new section keeps every store invariant. */
  lemma AddSectionPreservesValid(s: State, name: string)
    requires s.Valid()
    ensures AddSection(s, name).0.Valid()
  {
    var s' := AddSection(s, name).0;
    assert s'.IdsIssued() && s'.Linked() && s'.RowsOk();
  }

  /** A new photo under an existing section keeps every store invariant. */
  lemma AddPhotoPreservesValid(s: State, sectionId: nat, url: string)
    requires s.Valid() && sectionId in s.sections
    ensures AddPhoto(s, sectionId, url).0.Valid()
  {
    var s' := AddPhoto(s, sectionId, url).0;
    assert s'.IdsIssued() && s'.Linked() && s'.RowsOk();
  }

  lemma UploadPreservesValid(s: State, file: Upload, name: string)
    requires s.Valid()
    ensures var r := UploadGalleryPhoto(s, file, name); r.Ok? ==> r.value.0.Valid()
  {
    if file.filename != "" {
      var url := GalleryPhotoUrl(file);
      match FirstSectionNamed(s.sections, name)
      case Some(id) =>
        AddPhotoPreservesValid(s, id, url);
      case None =>
        var (s1, id) := AddSection(s, name);
        AddSectionPreservesValid(s, name);
        AddPhotoPreservesValid(s1, id, url);
    }
  }

  lemma CreateSectionPreservesValid(s: State, key: Option<string>, name: string)
    requires s.Valid()
    ensures var r := CreateSection(s, key, name); r.Ok? ==> r.value.0.Valid()
  {
    AddSectionPreservesValid(s, name);
  }

  lemma AddGalleryPhotoPreservesValid(s: State, key: Option<string>, sectionId: nat, url: string)
    requires s.Valid()
    ensures var r := AddGalleryPhoto(s, key, sectionId, url); r.Ok? ==> r.value.0.Valid()
  {
    if sectionId in s.sections {
      AddPhotoPreservesValid(s, sectionId, url);
    }
  }

  lemma RenameSectionPreservesValid(s: State, key: Option<string>, sectionId: nat, name: string)
    requires s.Valid()
    ensures var r := RenameSection(s, key, sectionId, name); r.Ok? ==> r.value.Valid()
  {
  }

  lemma DeleteSectionPreservesValid(s: State, key: Option<string>, sectionId: nat)
    requires s.Valid()
    ensures var r := DeleteSection(s, key, sectionId); r.Ok? ==> r.value.Valid()
  {
  }

  lemma DeleteGalleryPhotoPreservesValid(s: State, key: Option<string>, photoId: nat)
    requires s.Valid()
    ensures var r := DeleteGalleryPhoto(s, key, photoId); r.Ok? ==> r.value.Valid()
  {
  }
}
