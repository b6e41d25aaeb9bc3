# Memory Lane: verified model of the album, story and upload logic

Memory Lane is a photo-album web application. Under its React pages sit three
small pieces of list and record logic, and this project models them in Dafny:

- **Album covers** (`AlbumCovers`, from `src/app/page.tsx`). Each sample album
  looks up its cover photo in the placeholder-image table. It takes the first
  entry with that id. Each of the two resolved fields falls back on its own.
  The cover URL is the match's URL, or `https://picsum.photos/seed/<album id>/400/300`
  when there is no match or the match's URL is empty. The hint is the match's
  hint, or `placeholder` when there is no match or the match's hint is empty.
  The `albums` table maps this over the six sample albums.
- **Story composer** (`StoryCreator`, from `src/components/story-creator.tsx`).
  This covers the catalogue of selectable photos (placeholders whose id starts
  with `p`), the select/deselect toggle, the guard before generation, the
  positional pairing of the returned captions with the selected photos, and the
  reset. The class `StoryComposer` holds the component state: `selectedPhotos`,
  `theme`, `story` and `isGenerating`.
- **Upload queue** (`PhotoUploader`, from `src/components/photo-uploader.tsx`).
  The class `UploadQueue` holds the queued files (`files`), `isUploading` and
  `uploadProgress`. Its methods are the handlers: drop a batch, start a caption,
  receive a caption or a failure, edit a caption, remove a file, and the
  simulated upload. The upload is modelled as its timer's ticks.

The shared records are in `Records`. `Photo` and `Album` come from
`src/lib/types.ts`. The album seed is the album literal without cover fields at
`src/app/page.tsx:7-14`. The placeholder entry has the shape of the
placeholder-image table, which is not part of this model. The output shape of the story flow
is in `Flows`, from `src/ai/flows/generate-story-page.ts`.

External steps are parameters:
- The placeholder table is a `seq<Placeholder>` parameter.
- Fetching a photo as a data URI is `fetch: string -> Option<string>`.
- The story service is `service: (seq<string>, string) -> Option<StoryPageOutput>`.
- A caption reply arrives as the event `CaptionSucceeded(index, caption)`. A synchronous error while reading the file arrives as `CaptionFailed(index)`. A failure of the caption service itself produces no event.
- Preview object URLs are numbers handed out by a counter. Ghost state records which are live and which were revoked.

Points where the source's behaviour is easy to misread, and what the model does:
- The generation guard at src/components/story-creator.tsx:63 tests `!theme`. A theme of blanks therefore passes; only the empty string is refused. The model does the same.
- When the upload completes, src/components/photo-uploader.tsx:92 clears the queue without revoking the previews. The model's `Tick` likewise leaves those handles live, and `RunUpload` states that every preview of the uploaded files is still live and unrevoked afterwards.
- A failure of the caption service inside the reader callback (src/components/photo-uploader.tsx:51-58) is not caught by the `catch` block, so the flag stays set. In the model that is the absence of any `CaptionFailed` event. `CaptionFailed` is the `catch` path, which clears the flag.
- The caption callbacks (src/components/photo-uploader.tsx:54, 66) match on the index captured when generation started. If an earlier entry was removed meanwhile, the reply lands on whatever entry now holds that index. The model does the same; only an index past the end of the queue changes nothing.
- The story pairing (src/components/story-creator.tsx:83-86) is the one place where the model departs from the source: the composer uses the bounded pairing of the "## Findings" row, not the source's.

## Model

| member | source | states |
|---|---|---|
| `AlbumCovers.FindIndex` | src/app/page.tsx:17 | the index `find` stops at is the first entry with the id; no index means no entry has it |
| `AlbumCovers.Find` | src/app/page.tsx:17 | a placeholder is found exactly when some entry has the id, and it is the first such entry |
| `AlbumCovers.GetAlbumCover` | src/app/page.tsx:16-23 | id, name and cover photo id are kept; the URL and hint are the first match's when non-empty, else the generated URL and "placeholder", also when nothing matches |
| `AlbumCovers.CoverAll` | src/app/page.tsx:25 | the mapped table has the same length as the seeds and entry i is the resolved cover of seed i |
| `AlbumCovers.Albums` | src/app/page.tsx:25 | the `albums` constant has one entry per sample album, in order, entry i being the resolved cover of sample album i |
| `AlbumCovers.CoverUrlOrigin` | src/app/page.tsx:17-20 | a cover URL is never empty and is either a matching placeholder's URL or the album's generated URL |
| `AlbumCovers.FallbackUrlCarriesId` | src/app/page.tsx:20 | the generated URL holds the album id between the fixed prefix and suffix |
| `AlbumCovers.FallbackUrlInjective` | src/app/page.tsx:20 | different album ids give different generated URLs |
| `AlbumCovers.SampleIds` | src/app/page.tsx:7-14 | the sample data has six albums with ids "1" to "6", in that order and distinct |
| `AlbumCovers.AlbumsTable` | src/app/page.tsx:7-25 | `albums` has six entries in sample order with ids "1" to "6", all distinct, each the resolved cover of its sample album |
| `StoryCreator.AllPhotos` | src/components/story-creator.tsx:17-24 | every catalogue photo has an id starting with 'p' and album "unknown", and there are no more photos than table entries |
| `StoryCreator.AllPhotosMembership` | src/components/story-creator.tsx:17-24 | a photo is in the catalogue iff it is built (url, caption, hint from imageUrl, description, imageHint) from a table entry whose id starts with 'p' |
| `StoryCreator.AllPhotosConcat` | src/components/story-creator.tsx:17-18 | the catalogue keeps table order (it distributes over concatenation) |
| `StoryCreator.RemoveId` | src/components/story-creator.tsx:58 | no remaining photo has the id and each comes from the selection |
| `StoryCreator.RemoveIdMembership` | src/components/story-creator.tsx:58 | a photo survives deselection iff it was selected and has another id |
| `StoryCreator.RemoveIdConcat` | src/components/story-creator.tsx:58 | deselection keeps the relative order of the rest |
| `StoryCreator.RemoveIdAbsent` | src/components/story-creator.tsx:58 | deselecting an id that is not selected changes nothing |
| `StoryCreator.SelectThenDeselect` | src/components/story-creator.tsx:54-60 | selecting a new photo and deselecting it restores the selection |
| `StoryCreator.EncodeAll` | src/components/story-creator.tsx:76 | all payloads succeed iff every fetch succeeds; then payload i is the fetch of selected photo i's URL |
| `StoryCreator.Reply` | src/components/story-creator.tsx:76-81 | a reply exists only when every selected photo was fetched; once every photo is fetched, the reply is exactly the service's answer to those payloads and the theme |
| `StoryCreator.PairCaptions` | src/components/story-creator.tsx:83-86 | the story has min(selected, captions) photos and photo i is selected photo i with caption i |
| `StoryCreator.PairCaptionsExact` | src/components/story-creator.tsx:83-86 | with one caption per selected photo, every selected photo appears in order with its own id, URL and new caption |
| `StoryCreator.PairAsWritten` | src/components/story-creator.tsx:83-86 | the source's pairing: one entry per returned caption, entry i showing caption i |
| `StoryCreator.PairAsWrittenAgrees` | src/components/story-creator.tsx:83-86 | with no more captions than photos, the source's pairing equals the bounded one |
| `StoryCreator.PairOverrunLosesPhoto` | src/components/story-creator.tsx:83-86 | with more captions than photos, the source's pairing builds an entry with only a caption |
| `StoryCreator.ComposeStory` | src/components/story-creator.tsx:83-88 | title, introduction and conclusion are the reply's verbatim; the photos are the positional pairing |
| `StoryCreator.StoryComposer.constructor` | src/components/story-creator.tsx:48-51 | starts with no selection, empty theme, no story, not generating |
| `StoryCreator.StoryComposer.SelectPhoto` | src/components/story-creator.tsx:54-60 | checking appends the photo at the end; unchecking removes every entry with its id |
| `StoryCreator.StoryComposer.SetTheme` | src/components/story-creator.tsx:185 | the theme becomes the input's value |
| `StoryCreator.StoryComposer.ReadyToGenerate` | src/components/story-creator.tsx:63 | generation may start iff at least one photo is selected and the theme is not empty |
| `StoryCreator.StoryComposer.BeginGeneration` | src/components/story-creator.tsx:62-73 | an empty selection or theme changes nothing; otherwise the selection and theme are captured, the story is cleared and generation is marked |
| `StoryCreator.StoryComposer.CompleteGeneration` | src/components/story-creator.tsx:83-99 | a reply sets the story paired with the captured selection, a failure leaves it; generation stops in both cases |
| `StoryCreator.StoryComposer.GenerateStory` | src/components/story-creator.tsx:62-100 | selection and theme are never changed; missing information leaves everything; a failed fetch or reply leaves no story; success holds the composed story; generation ends false |
| `StoryCreator.StoryComposer.Reset` | src/components/story-creator.tsx:130 | story, selection and theme are cleared |
| `PhotoUploader.TotalSizeConcat` | src/components/photo-uploader.tsx:83 | the total size of two lists is the sum of their totals |
| `PhotoUploader.TotalSize` | src/components/photo-uploader.tsx:83 | the sum of the queued sizes, folded from the left; it bounds every single file size |
| `PhotoUploader.TotalSizePositive` | src/components/photo-uploader.tsx:83 | the total is positive iff some file is non-empty |
| `PhotoUploader.NewEntries` | src/components/photo-uploader.tsx:28-33 | one entry per accepted file, in order, with a fresh preview, empty caption and no caption in progress |
| `PhotoUploader.Progress` | src/components/photo-uploader.tsx:86-87 | the percentage reaches 100 exactly when the uploaded amount reaches the total size |
| `PhotoUploader.ProgressAfterTicks` | src/components/photo-uploader.tsx:86-87 | after k ticks the progress is exactly 10k percent |
| `PhotoUploader.UploadQueue.constructor` | src/components/photo-uploader.tsx:22-24 | starts with an empty queue, not uploading, progress 0, no previews |
| `PhotoUploader.UploadQueue.OnDrop` | src/components/photo-uploader.tsx:27-35 | the new entries follow the old ones unchanged; their previews become live; the total size grows by the new entries' total |
| `PhotoUploader.UploadQueue.BeginCaption` | src/components/photo-uploader.tsx:42-46 | an index outside the queue changes nothing; otherwise only that entry's flag is set |
| `PhotoUploader.UploadQueue.CaptionSucceeded` | src/components/photo-uploader.tsx:54 | only the entry at the index changes: caption is the reply verbatim, flag cleared; an index past the end of the queue changes nothing |
| `PhotoUploader.UploadQueue.CaptionFailed` | src/components/photo-uploader.tsx:59-67 | only the flag of the entry at the index is cleared |
| `PhotoUploader.UploadQueue.ChangeCaption` | src/components/photo-uploader.tsx:70-72 | only the caption of the entry at the index is replaced |
| `PhotoUploader.UploadQueue.RemoveFile` | src/components/photo-uploader.tsx:74-77 | length drops by one, the prefix stays, later entries shift down, the preview is revoked once and was not revoked before |
| `PhotoUploader.UploadQueue.UploadEnabled` | src/components/photo-uploader.tsx:163 | the upload button is enabled iff no upload runs and the queue is not empty |
| `PhotoUploader.UploadQueue.StartUpload` | src/components/photo-uploader.tsx:79-84 | uploading starts at progress 0 with the queue's total size and count captured |
| `PhotoUploader.UploadQueue.Tick` | src/components/photo-uploader.tsx:85-98 | progress grows by 10; at 100 the upload stops, the queue empties and the summary is the captured count; no preview handle is revoked |
| `PhotoUploader.UploadQueue.RunUpload` | src/components/photo-uploader.tsx:79-98 | progress reports 10, 20, ..., 100 and reaches 100 once; the queue ends empty; the count is the queue length at the start; every preview of the uploaded files is still live and none was revoked |

## Findings

| source | as written | input that shows it | evidently intended | confidence | as-written member | corrected member |
|---|---|---|---|---|---|---|
| src/components/story-creator.tsx:83-86 | each returned caption is spread over `selectedPhotos[index]`, also past the end of the selection | one selected photo and a reply with two captions: entry 1 has a caption but no id, URL or hint | pair only as many entries as there are both photos and captions | medium, not executed | `StoryCreator.PairOverrunLosesPhoto` (about `StoryCreator.PairAsWritten`) | `StoryCreator.PairCaptions` |

## Left out

- StoryCreator.ComposeStory: pairs with the bounded `PairCaptions` of the "## Findings" row. For a reply with more captions than selected photos the source's story has one entry per caption, the extra ones holding only a caption; the model's story has one entry per selected photo. `PairAsWritten` models the source's pairing.
- Rendering, routing, Next.js images and links, styling and toasts. The story toasts appear as the outcome value `GenerationOutcome` and the upload toast as the upload summary. The "Caption Generation Failed" toast (src/components/photo-uploader.tsx:61-65) is not modelled; only its flag reset is, as `CaptionFailed`.
- The hosted-model flows. Only their output shape is kept; the calls are the function parameters `fetch` and `service`, or the caption events.
- `toDataURI` and `FileReader`. They are a possibly failing `fetch` parameter.
- Browser object URLs. They are numbered handles with ghost live/revoked bookkeeping.
- Floating-point progress and timer timing. The upload advances by exact integer ticks.
- Async interleaving. `GenerateStory` and `RunUpload` run to completion with no other event in between. The separate events (`BeginGeneration`/`CompleteGeneration`, `StartUpload`/`Tick`, the caption events) let any order of events be expressed, but the event loop itself is not modelled.
- `PhotoUploader.UploadQueue.StartUpload`: requires a positive total size. With a total of zero the source computes NaN progress and never completes, which is outside an integer model.
- `PhotoUploader.UploadQueue.RunUpload`: requires a positive total size, for the same reason.
- `PhotoUploader.UploadQueue.RemoveFile`: requires an index inside the queue. Outside it the source throws when reading the preview.
- The photo and album pages' lookups (default caption "A beautiful memory") are not part of this model.
