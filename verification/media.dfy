/** The media store, reduced to the public URLs of stored files. Writing the
    bytes, and how a unique file name is generated, happen outside the model:
    an upload carries the name its file was stored under. */
module Media {

  /** One uploaded file: the client's file name and the name it was stored under. */
  datatype Upload = Upload(filename: string, storedName: string)

  const ReviewPhotoPrefix: string := "/static/review_photos/"
  const GalleryPhotoPrefix: string := "/static/gallery_photos/"

  /** A server-relative path into the public review-photo folder. */
  predicate InReviewFolder(url: string) {
    ReviewPhotoPrefix <= url
  }

  /** A server-relative path into the public gallery-photo folder. */
  predicate InGalleryFolder(url: string) {
    GalleryPhotoPrefix <= url
  }

  function ReviewPhotoUrl(f: Upload): (url: string)
    ensures InReviewFolder(url)
  {
    ReviewPhotoPrefix + f.storedName
  }

  function GalleryPhotoUrl(f: Upload): (url: string)
    ensures InGalleryFolder(url)
  {
    GalleryPhotoPrefix + f.storedName
  }
}
