/** The records shared by the album pages and the two workflows (src/lib/types.ts),
    the shape of one entry of the placeholder-image table, and an Option type for
    the lookups that may find nothing. */
module Records {

  datatype Option<+T> = None | Some(value: T)

  /** A photo as the pages display it. */
  datatype Photo = Photo(id: string, url: string, caption: string, albumId: string, dataAiHint: string)

  /** An album whose cover has been resolved to a URL and a hint. */
  datatype Album = Album(id: string, name: string, coverPhotoId: string, coverPhotoUrl: string, dataAiHint: string)

  /** An album as it is written in the sample data, before its cover is resolved
      (an Album without its two resolved fields). */
  datatype AlbumSeed = AlbumSeed(id: string, name: string, coverPhotoId: string)

  /** One entry of the static placeholder-image table. */
  datatype Placeholder = Placeholder(id: string, description: string, imageHint: string, imageUrl: string)
}

/** The output shapes of the two hosted-model flows. The calls themselves are not
    modelled; the workflows receive their replies as parameters. */
module Flows {

  /** One entry of the story reply's `photos` array. */
  datatype PhotoCaption = PhotoCaption(caption: string)

  /** The reply of the story-page flow: title, introduction, one caption per photo, conclusion. */
  datatype StoryPageOutput = StoryPageOutput(
    title: string,
    introduction: string,
    photos: seq<PhotoCaption>,
    conclusion: string)
}
