/** Resolution of album covers on the home page (src/app/page.tsx): each album of
    the sample data looks its cover photo up in the placeholder-image table and
    falls back to a generated picsum URL and the hint "placeholder". The table is a
    parameter, since its contents are not part of this model. */
module AlbumCovers {
  import opened Records

  const FallbackPrefix: string := "https://picsum.photos/seed/"
  const FallbackSuffix: string := "/400/300"
  const DefaultHint: string := "placeholder"

  /** The six albums of the sample data, in page order. */
  const AlbumsData: seq<AlbumSeed> := [
    AlbumSeed("1", "Family Vacation", "album-1-cover"),
    AlbumSeed("2", "Summer Memories", "album-2-cover"),
    AlbumSeed("3", "City Adventures", "album-3-cover"),
    AlbumSeed("4", "Our Wedding Day", "album-4-cover"),
    AlbumSeed("5", "Baby's First Year", "album-5-cover"),
    AlbumSeed("6", "Road Trip 2023", "album-6-cover")
  ]

  /** k is the position of the first table entry whose id is `id`. */
  ghost predicate IsFirstMatch(table: seq<Placeholder>, id: string, k: int) {
    0 <= k < |table| && table[k].id == id &&
    forall j :: 0 <= j < k ==> table[j].id != id
  }

  /** No table entry has id `id`. */
  ghost predicate NoMatch(table: seq<Placeholder>, id: string) {
    forall j :: 0 <= j < |table| ==> table[j].id != id
  }

  /** The position a front-to-back search for `id` stops at. */
  function FindIndex(table: seq<Placeholder>, id: string): (r: Option<nat>)
    ensures r.Some? ==> IsFirstMatch(table, id, r.value)
    ensures r.None? ==> NoMatch(table, id)
  {
    if |table| == 0 then None
    else if table[0].id == id then Some(0)
    else match FindIndex(table[1..], id)
      case None => None
      case Some(k) => Some(k + 1)
  }

  /** The lookup of the cover photo: the first entry with that id, if any. */
  function Find(table: seq<Placeholder>, id: string): (r: Option<Placeholder>)
    ensures r.Some? <==> !NoMatch(table, id)
    ensures forall k :: IsFirstMatch(table, id, k) ==> r == Some(table[k])
  {
    match FindIndex(table, id)
    case None => None
    case Some(k) => Some(table[k])
  }

  /** The generated cover URL of an album whose placeholder is missing or has no URL. */
  function FallbackUrl(albumId: string): string {
    FallbackPrefix + albumId + FallbackSuffix
  }

  /** `getAlbumCover`: keeps the album's own fields, takes the cover URL and hint from
      the first placeholder with the cover photo's id, and falls back (through `||`,
      so also for an empty URL or hint) to the generated URL and "placeholder". */
  function GetAlbumCover(table: seq<Placeholder>, album: AlbumSeed): (r: Album)
    ensures r.id == album.id && r.name == album.name && r.coverPhotoId == album.coverPhotoId
    ensures forall k :: IsFirstMatch(table, album.coverPhotoId, k) ==>
      r.coverPhotoUrl == (if table[k].imageUrl != "" then table[k].imageUrl else FallbackUrl(album.id)) &&
      r.dataAiHint == (if table[k].imageHint != "" then table[k].imageHint else DefaultHint)
    ensures NoMatch(table, album.coverPhotoId) ==>
      r.coverPhotoUrl == FallbackUrl(album.id) && r.dataAiHint == DefaultHint
  {
    var placeholder := Find(table, album.coverPhotoId);
    var url := if placeholder.Some? && placeholder.value.imageUrl != "" then placeholder.value.imageUrl
               else FallbackUrl(album.id);
    var hint := if placeholder.Some? && placeholder.value.imageHint != "" then placeholder.value.imageHint
                else DefaultHint;
    Album(album.id, album.name, album.coverPhotoId, url, hint)
  }

  /** Every seed with its cover resolved, in seed order. */
  function CoverAll(table: seq<Placeholder>, seeds: seq<AlbumSeed>): (r: seq<Album>)
    ensures |r| == |seeds|
    ensures forall i :: 0 <= i < |seeds| ==> r[i] == GetAlbumCover(table, seeds[i])
  {
    if |seeds| == 0 then [] else [GetAlbumCover(table, seeds[0])] + CoverAll(table, seeds[1..])
  }

  /** The `albums` table the home page renders. */
  function Albums(table: seq<Placeholder>): (r: seq<Album>)
    ensures |r| == |AlbumsData|
    ensures forall i :: 0 <= i < |r| ==> r[i] == GetAlbumCover(table, AlbumsData[i])
  {
    CoverAll(table, AlbumsData)
  }

  /** Every resolved cover URL is either the URL of a placeholder carrying the cover
      photo's id or the generated URL of the album; it is never empty. */
  lemma CoverUrlOrigin(table: seq<Placeholder>, album: AlbumSeed)
    ensures GetAlbumCover(table, album).coverPhotoUrl != ""
    ensures GetAlbumCover(table, album).coverPhotoUrl == FallbackUrl(album.id) ||
            exists k :: 0 <= k < |table| && table[k].id == album.coverPhotoId &&
                        table[k].imageUrl == GetAlbumCover(table, album).coverPhotoUrl
  {
    match FindIndex(table, album.coverPhotoId)
    case None =>
    case Some(k) =>
      assert IsFirstMatch(table, album.coverPhotoId, k);
  }

  /** The generated URL carries the album id between the fixed prefix and suffix. */
  lemma FallbackUrlCarriesId(albumId: string)
    ensures |FallbackUrl(albumId)| == |FallbackPrefix| + |albumId| + |FallbackSuffix|
    ensures FallbackUrl(albumId)[|FallbackPrefix|..|FallbackPrefix| + |albumId|] == albumId
  {
    var u := FallbackUrl(albumId);
    assert u == (FallbackPrefix + albumId) + FallbackSuffix;
    assert u[..|FallbackPrefix| + |albumId|] == FallbackPrefix + albumId;
    assert (FallbackPrefix + albumId)[|FallbackPrefix|..] == albumId;
  }

  /** Distinct albums get distinct generated URLs: the fallback is deterministic and
      derived from the album id alone. */
  lemma FallbackUrlInjective(a: string, b: string)
    requires FallbackUrl(a) == FallbackUrl(b)
    ensures a == b
  {
    FallbackUrlCarriesId(a);
    FallbackUrlCarriesId(b);
  }

  /** The ids of the sample albums, in page order. */
  lemma SampleIds()
    ensures |AlbumsData| == 6
    ensures forall i :: 0 <= i < 6 ==> AlbumsData[i].id == ["1", "2", "3", "4", "5", "6"][i]
    ensures forall i, j :: 0 <= i < j < 6 ==> AlbumsData[i].id != AlbumsData[j].id
  {
    var ids := ["1", "2", "3", "4", "5", "6"];
    assert forall i :: 0 <= i < 6 ==> AlbumsData[i].id == ids[i];
    assert forall i :: 0 <= i < 6 ==> |ids[i]| == 1 && ids[i][0] == "123456"[i];
  }

  /** The `albums` table has one entry per sample album, in the same order, each the
      resolved cover of that album; the six ids are "1" to "6" and are distinct. */
  lemma AlbumsTable(table: seq<Placeholder>)
    ensures |Albums(table)| == |AlbumsData| == 6
    ensures forall i :: 0 <= i < 6 ==> Albums(table)[i] == GetAlbumCover(table, AlbumsData[i])
    ensures forall i :: 0 <= i < 6 ==> Albums(table)[i].id == ["1", "2", "3", "4", "5", "6"][i]
    ensures forall i, j :: 0 <= i < j < 6 ==> Albums(table)[i].id != Albums(table)[j].id
  {
    SampleIds();
    var r := Albums(table);
    assert forall i :: 0 <= i < 6 ==> r[i].id == AlbumsData[i].id;
  }
}
