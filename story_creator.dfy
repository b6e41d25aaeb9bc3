/** The story composer (src/components/story-creator.tsx): the catalogue of
    selectable photos derived from the placeholder table, the selection toggle, the
    guarded generation request, the positional pairing of the returned captions
    with the selected photos, and the reset after a story was shown.
    Fetching a photo's bytes and calling the hosted model are I/O: they enter as the
    function parameters `fetch` (URL to data URI, or failure) and `service`
    (data URIs and theme to a story reply, or failure). */
module StoryCreator {
  import opened Records
  import opened Flows

  /** A produced story: the photos carry the captions of the reply. */
  datatype Story = Story(title: string, introduction: string, photos: seq<Photo>, conclusion: string)

  /** What the generation handler captured when it started: the selection and the theme
      of that render. The reply is paired with these, not with later state. */
  datatype StoryRequest = StoryRequest(photos: seq<Photo>, theme: string)

  /** How one press of "Generate Story with AI" ended: a "Missing Information" or a
      "Story Generation Failed" notification, or the produced story on display. */
  datatype GenerationOutcome = MissingInformation | GenerationFailed | StoryReady

  function Min(a: nat, b: nat): nat { if a <= b then a else b }

  // ---------------------------------------------------------------------------
  // The catalogue of selectable photos

  /** The catalogue takes the placeholder ids that start with 'p'. */
  predicate IsPhotoId(id: string) {
    |id| > 0 && id[0] == 'p'
  }

  /** The record built for one placeholder entry. */
  function AsPhoto(p: Placeholder): Photo {
    Photo(p.id, p.imageUrl, p.description, "unknown", p.imageHint)
  }

  /** `allPhotos`: the placeholder entries whose id starts with 'p', as photos. */
  function AllPhotos(table: seq<Placeholder>): (r: seq<Photo>)
    ensures |r| <= |table|
    ensures forall i :: 0 <= i < |r| ==> IsPhotoId(r[i].id) && r[i].albumId == "unknown"
  {
    if |table| == 0 then []
    else (if IsPhotoId(table[0].id) then [AsPhoto(table[0])] else []) + AllPhotos(table[1..])
  }

  /** A photo is in the catalogue exactly when it is built from a table entry whose id
      starts with 'p'. */
  lemma {:induction false} AllPhotosMembership(table: seq<Placeholder>, ph: Photo)
    ensures ph in AllPhotos(table) <==>
            exists k :: 0 <= k < |table| && IsPhotoId(table[k].id) && AsPhoto(table[k]) == ph
  {
    if |table| > 0 {
      AllPhotosMembership(table[1..], ph);
      if exists k :: 0 <= k < |table| && IsPhotoId(table[k].id) && AsPhoto(table[k]) == ph {
        var k :| 0 <= k < |table| && IsPhotoId(table[k].id) && AsPhoto(table[k]) == ph;
        if k > 0 {
          assert table[1..][k - 1] == table[k];
        }
      }
      if ph in AllPhotos(table[1..]) {
        var k :| 0 <= k < |table[1..]| && IsPhotoId(table[1..][k].id) && AsPhoto(table[1..][k]) == ph;
        assert table[k + 1] == table[1..][k];
      }
    }
  }

  /** The catalogue keeps table order: it distributes over concatenation of tables. */
  lemma {:induction false} AllPhotosConcat(a: seq<Placeholder>, b: seq<Placeholder>)
    ensures AllPhotos(a + b) == AllPhotos(a) + AllPhotos(b)
  {
    if |a| == 0 {
      assert a + b == b;
    } else {
      assert (a + b)[0] == a[0];
      assert (a + b)[1..] == a[1..] + b;
      AllPhotosConcat(a[1..], b);
    }
  }

  // ---------------------------------------------------------------------------
  // Selection

  /** The selection without any photo that has id `id`. */
  function RemoveId(s: seq<Photo>, id: string): (r: seq<Photo>)
    ensures |r| <= |s|
    ensures forall i :: 0 <= i < |r| ==> r[i].id != id && r[i] in s
  {
    if |s| == 0 then []
    else (if s[0].id != id then [s[0]] else []) + RemoveId(s[1..], id)
  }

  /** Deselecting keeps exactly the entries with another id. */
  lemma {:induction false} RemoveIdMembership(s: seq<Photo>, id: string, x: Photo)
    ensures x in RemoveId(s, id) <==> x in s && x.id != id
  {
    if |s| > 0 {
      RemoveIdMembership(s[1..], id, x);
      assert s == [s[0]] + s[1..];
    }
  }

  /** Deselecting keeps the relative order of the rest: it distributes over concatenation. */
  lemma {:induction false} RemoveIdConcat(a: seq<Photo>, b: seq<Photo>, id: string)
    ensures RemoveId(a + b, id) == RemoveId(a, id) + RemoveId(b, id)
  {
    if |a| == 0 {
      assert a + b == b;
    } else {
      assert (a + b)[0] == a[0];
      assert (a + b)[1..] == a[1..] + b;
      RemoveIdConcat(a[1..], b, id);
    }
  }

  /** Deselecting an id that is not selected changes nothing. */
  lemma {:induction false} RemoveIdAbsent(s: seq<Photo>, id: string)
    requires forall i :: 0 <= i < |s| ==> s[i].id != id
    ensures RemoveId(s, id) == s
  {
    if |s| > 0 {
      RemoveIdAbsent(s[1..], id);
      assert s == [s[0]] + s[1..];
    }
  }

  /** Selecting a photo whose id is not yet selected and then deselecting it gives the
      selection back. */
  lemma SelectThenDeselect(s: seq<Photo>, photo: Photo)
    requires forall i :: 0 <= i < |s| ==> s[i].id != photo.id
    ensures RemoveId(s + [photo], photo.id) == s
  {
    RemoveIdConcat(s, [photo], photo.id);
    RemoveIdAbsent(s, photo.id);
    assert RemoveId([photo], photo.id) == [];
  }

  // ---------------------------------------------------------------------------
  // Generation

  /** All photos fetched as data URIs at once: one data URI per photo, in
      selection order, or a failure as soon as one fetch fails. */
  function EncodeAll(fetch: string -> Option<string>, photos: seq<Photo>): (r: Option<seq<string>>)
    ensures r.Some? <==> forall i :: 0 <= i < |photos| ==> fetch(photos[i].url).Some?
    ensures r.Some? ==> |r.value| == |photos| &&
                        forall i :: 0 <= i < |photos| ==> r.value[i] == fetch(photos[i].url).value
  {
    if |photos| == 0 then Some([])
    else match fetch(photos[0].url)
      case None => None
      case Some(uri) =>
        match EncodeAll(fetch, photos[1..])
        case None => None
        case Some(rest) => Some([uri] + rest)
  }

  /** The reply the handler ends up with: the encoded photos and the theme handed to
      the service, or a failure of either step. */
  function Reply(fetch: string -> Option<string>, service: (seq<string>, string) -> Option<StoryPageOutput>,
                 request: StoryRequest): (r: Option<StoryPageOutput>)
    ensures r.Some? ==> forall i :: 0 <= i < |request.photos| ==> fetch(request.photos[i].url).Some?
    ensures r.Some? ==> r == service(EncodeAll(fetch, request.photos).value, request.theme)
    ensures (forall i :: 0 <= i < |request.photos| ==> fetch(request.photos[i].url).Some?) ==>
            r == service(EncodeAll(fetch, request.photos).value, request.theme)
  {
    match EncodeAll(fetch, request.photos)
    case None => None
    case Some(uris) => service(uris, request.theme)
  }

  /** The positional pairing, bounded by both lengths: entry i is the i-th selected photo
      with the i-th returned caption. */
  function PairCaptions(selection: seq<Photo>, captions: seq<PhotoCaption>): (r: seq<Photo>)
    ensures |r| == Min(|selection|, |captions|)
    ensures forall i :: 0 <= i < |r| ==> r[i] == selection[i].(caption := captions[i].caption)
  {
    if |selection| == 0 || |captions| == 0 then []
    else [selection[0].(caption := captions[0].caption)] + PairCaptions(selection[1..], captions[1..])
  }

  /** When the reply has one caption per selected photo, the story shows every selected
      photo, in selection order, each with its own new caption. */
  lemma PairCaptionsExact(selection: seq<Photo>, captions: seq<PhotoCaption>)
    requires |captions| == |selection|
    ensures |PairCaptions(selection, captions)| == |selection|
    ensures forall i :: 0 <= i < |selection| ==>
      PairCaptions(selection, captions)[i].id == selection[i].id &&
      PairCaptions(selection, captions)[i].url == selection[i].url &&
      PairCaptions(selection, captions)[i].caption == captions[i].caption
  {
  }

  /** An entry of the story's photo list as the source builds it: the spread of
      `selectedPhotos[index]` plus the caption, or only the caption when that index
      is past the end of the selection (spreading `undefined` adds no field). */
  datatype SpreadPhoto = FromSelection(photo: Photo) | CaptionOnly(caption: string)

  /** The caption an entry shows. */
  function CaptionOf(e: SpreadPhoto): string {
    match e
    case FromSelection(p) => p.caption
    case CaptionOnly(c) => c
  }

  /** The source's pairing: one entry per returned caption, built from the selected photo
      at the same index. */
  function PairAsWritten(selection: seq<Photo>, captions: seq<PhotoCaption>): (r: seq<SpreadPhoto>)
    ensures |r| == |captions|
    ensures forall i :: 0 <= i < |r| ==> CaptionOf(r[i]) == captions[i].caption
  {
    seq(|captions|, i requires 0 <= i < |captions| =>
      if i < |selection| then FromSelection(selection[i].(caption := captions[i].caption))
      else CaptionOnly(captions[i].caption))
  }

  /** Within the selection's length the source's pairing and the bounded one agree. */
  lemma PairAsWrittenAgrees(selection: seq<Photo>, captions: seq<PhotoCaption>)
    requires |captions| <= |selection|
    ensures |PairAsWritten(selection, captions)| == |PairCaptions(selection, captions)|
    ensures forall i :: 0 <= i < |captions| ==>
      PairAsWritten(selection, captions)[i] == FromSelection(PairCaptions(selection, captions)[i])
  {
  }

  /** A reply with more captions than selected photos makes the source build an entry
      with a caption but no id, URL, album or hint. */
  lemma PairOverrunLosesPhoto(selection: seq<Photo>, captions: seq<PhotoCaption>)
    requires |captions| > |selection|
    ensures |PairAsWritten(selection, captions)| > |PairCaptions(selection, captions)|
    ensures PairAsWritten(selection, captions)[|selection|] == CaptionOnly(captions[|selection|].caption)
  {
  }

  /** The story set on success: the reply's texts verbatim and the paired photos. */
  function ComposeStory(selection: seq<Photo>, reply: StoryPageOutput): (r: Story)
    ensures r.title == reply.title && r.introduction == reply.introduction && r.conclusion == reply.conclusion
    ensures |r.photos| == Min(|selection|, |reply.photos|)
    ensures forall i :: 0 <= i < |r.photos| ==> r.photos[i] == selection[i].(caption := reply.photos[i].caption)
  {
    Story(reply.title, reply.introduction, PairCaptions(selection, reply.photos), reply.conclusion)
  }

  // ---------------------------------------------------------------------------
  // The component state

  class StoryComposer {
    var selectedPhotos: seq<Photo>
    var theme: string
    var story: Option<Story>
    var isGenerating: bool

    /** No story is held while a generation is running. */
    ghost predicate Valid()
      reads this
    {
      isGenerating ==> story.None?
    }

    constructor ()
      ensures Valid()
      ensures selectedPhotos == [] && theme == "" && story == None && !isGenerating
    {
      selectedPhotos, theme, story, isGenerating := [], "", None, false;
    }

    /** `handlePhotoSelect`: append when checked, drop every entry with that id when unchecked. */
    method SelectPhoto(photo: Photo, isSelected: bool)
      requires Valid()
      modifies this`selectedPhotos
      ensures Valid()
      ensures selectedPhotos == if isSelected then old(selectedPhotos) + [photo]
                                else RemoveId(old(selectedPhotos), photo.id)
    {
      if isSelected {
        selectedPhotos := selectedPhotos + [photo];
      } else {
        selectedPhotos := RemoveId(selectedPhotos, photo.id);
      }
    }

    /** The theme input's change handler. */
    method SetTheme(t: string)
      requires Valid()
      modifies this`theme
      ensures Valid()
      ensures theme == t
    {
      theme := t;
    }

    /** The guard of `handleGenerateStory`: at least one photo and a non-empty theme. */
    predicate ReadyToGenerate()
      reads this
    {
      |selectedPhotos| > 0 && theme != ""
    }

    /** The synchronous start of `handleGenerateStory`. When the guard fails nothing
        changes (the "Missing Information" notification); otherwise the handler
        captures the selection and the theme, clears the story and marks generation. */
    method BeginGeneration() returns (request: Option<StoryRequest>)
      requires Valid()
      modifies this`isGenerating, this`story
      ensures Valid()
      ensures !old(ReadyToGenerate()) ==>
        request == None && isGenerating == old(isGenerating) && story == old(story)
      ensures old(ReadyToGenerate()) ==>
        request == Some(StoryRequest(selectedPhotos, theme)) && isGenerating && story == None
    {
      if |selectedPhotos| == 0 || theme == "" {
        return None;
      }
      isGenerating := true;
      story := None;
      request := Some(StoryRequest(selectedPhotos, theme));
    }

    /** The end of `handleGenerateStory`: on a reply the story pairs it with the captured
        selection; on any failure the story is left as it was; generation stops either way. */
    method CompleteGeneration(request: StoryRequest, reply: Option<StoryPageOutput>)
      requires Valid()
      modifies this`isGenerating, this`story
      ensures Valid()
      ensures !isGenerating
      ensures story == if reply.Some? then Some(ComposeStory(request.photos, reply.value)) else old(story)
    {
      if reply.Some? {
        story := Some(ComposeStory(request.photos, reply.value));
      }
      isGenerating := false;
    }

    /** `handleGenerateStory` run to its end with no other event in between. The
        selection and the theme are never touched; a failure leaves no story. */
    method GenerateStory(fetch: string -> Option<string>,
                         service: (seq<string>, string) -> Option<StoryPageOutput>)
      returns (outcome: GenerationOutcome)
      requires Valid()
      modifies this`isGenerating, this`story
      ensures Valid()
      ensures selectedPhotos == old(selectedPhotos) && theme == old(theme)
      ensures outcome == MissingInformation <==> !old(ReadyToGenerate())
      ensures outcome == MissingInformation ==> isGenerating == old(isGenerating) && story == old(story)
      ensures outcome != MissingInformation ==> !isGenerating
      ensures outcome == GenerationFailed ==> story == None
      ensures outcome == StoryReady <==>
        old(ReadyToGenerate()) && Reply(fetch, service, StoryRequest(old(selectedPhotos), old(theme))).Some?
      ensures outcome == StoryReady ==>
        story == Some(ComposeStory(old(selectedPhotos),
                                   Reply(fetch, service, StoryRequest(old(selectedPhotos), old(theme))).value))
    {
      var request := BeginGeneration();
      if request.None? {
        return MissingInformation;
      }
      var reply := Reply(fetch, service, request.value);
      CompleteGeneration(request.value, reply);
      outcome := if reply.Some? then StoryReady else GenerationFailed;
    }

    /** "Create another story": clears the story, the selection and the theme. */
    method Reset()
      requires Valid()
      modifies this`story, this`selectedPhotos, this`theme
      ensures Valid()
      ensures story == None && selectedPhotos == [] && theme == ""
    {
      story, selectedPhotos, theme := None, [], "";
    }
  }
}
