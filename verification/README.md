# Go-YT2MP3, modelled in Dafny

Go-YT2MP3 is a small web service that turns a YouTube video into a tagged MP3. It has two parts:

- **The Go backend (main.go, lib/).** It answers four HTTP routes:
  - `GET /api/info/` looks a video up and suggests a slug, title, artist and album.
  - `POST /api/tasks/` queues a conversion task.
  - `GET /api/tasks/` lists the last twenty tasks.
  - `GET /api/get/<file>` serves a finished MP3, as an attachment with `?dl=true`.

  A background scheduler takes one task at a time. It looks the video up, then runs `Yt2Mp3`: download the video and the thumbnail side by side, resize the thumbnail to a 512x512 JPEG cover, and have ffmpeg write an MP3 with ID3 tags. The outcome is recorded on the task.
- **The React client (ui/src/).** It holds a `fetchAPI` wrapper around `fetch`, a `useFetch` hook with a shared per-key cache and in-flight de-duplication, and the single page:
  - find a video;
  - edit the suggested fields and submit;
  - poll the task list every second while a task is pending;
  - list tasks newest first, with links to the files.

The model keeps every decision these files make. Effects become inputs:

- the video lookup, directory creation, the downloads, image decoding and encoding, the ffmpeg run, and opening a file each become an `Option`/`Result` outcome or a function-typed parameter;
- the third-party slug functions become a parameter;
- React renders become events.

Go's pointer sharing between the task queue and the twenty-entry history becomes a store of tasks indexed by creation number, with the two slices as sequences of those numbers.

The string functions the code relies on are written out:

- JavaScript's `trim`, `split("/").pop()`, `encodeURI` and `encodeURIComponent` (section 19.2.6 of ECMA-262, including UTF-8 percent-encoding);
- Go's `strings.LastIndex`, `url.ParseQuery`/`Values.Get` with `QueryUnescape`;
- the browser's split of an href into path, query and fragment.

This lets the cross-file lemmas in `EndToEnd` follow a value from the client, over the wire, into a handler and back.

Modules, one per file:

| module | file | models |
|---|---|---|
| `Common` | common.dfy | `Option`, `Result` |
| `Strings` | strings.dfy | JS `trim`/`split`/`join`, Go `LastIndex` |
| `Urls` | urls.dfy | href split, Go query parsing and unescaping |
| `UriCoding` | uri.dfy | `encodeURI`, `encodeURIComponent`, UTF-8 |
| `ApiTypes` | apitypes.dfy | types/api.go |
| `Video` | video.dfy | the looked-up video's fields |
| `Conversion` | conversion.dfy | lib/yt2mp3.go |
| `Tasks` | tasks.dfy | lib/tasks.go |
| `Server` | server.dfy | the handlers of main.go |
| `Api` | api.dfy | ui/src/api.ts |
| `CachedFetch` | usefetch.dfy | ui/src/hooks/useFetch.ts |
| `App` | app.dfy | ui/src/App.tsx |
| `EndToEnd` | endtoend.dfy | client and server together |

Two behaviours of the code worth knowing before reading the model:

- **Error bodies.** A failed response whose body is not JSON makes `fetchAPI` throw a TypeError instead of an error carrying the status text (Findings, first row).
- **Task errors.** A task's `error` field holds a Go `error` from the video lookup, the downloads, the file system or ffmpeg, and `json.Marshal` writes it according to its dynamic type. The client shows "Error!" for any truthy value, with the value as the cell's tooltip (ui/src/App.tsx:338-341). The model records only whether an error is present (`EndToEnd.TaskJson`).

The operations model the code as written. Where a finding below records a bug, the evidently intended behaviour is a separate member, named `…Corrected` or marked "corrected" in its row. The lemmas about it are marked the same way.

## Model

| member | source | states |
|---|---|---|
| Video.EffectiveArtist | lib/yt2mp3.go:158-163 | the artist is the video's `Artist` when non-empty, its `Channel` otherwise |
| Conversion.PlanAsWritten | lib/yt2mp3.go:155-172 | as written: title and album come from the video and the artist from the rule above. The slug is the requested one, or the slug of the video title when empty. The video, thumbnail and MP3 paths are `<dir>/<slug>.<ext>` |
| Conversion.AsWrittenIgnoresSubmittedTags | lib/yt2mp3.go:157-163 | two requests that differ only in title, artist or album get the same plan |
| Conversion.AsWrittenDropsEditedTitle | lib/yt2mp3.go:157 | a task retitled "New Title!" is still tagged with the video's title |
| Conversion.PlanFor | lib/yt2mp3.go:157-172 | corrected: each submitted tag wins when non-empty and the video's value is used otherwise; paths as above |
| Conversion.PlansAgreeOnUneditedTags | lib/yt2mp3.go:157-168 | when each submitted tag is empty or equals the suggestion, the corrected and as-written plans are identical |
| Conversion.PlansShareFiles | lib/yt2mp3.go:165-172 | with a requested slug both plans use the same slug and file paths |
| Conversion.OutputNameIsSlug | lib/yt2mp3.go:172 | the last `/`-segment of the output path is `<slug>.mp3` for any output directory |
| Conversion.Extension | lib/yt2mp3.go:50 | the extension is the suffix from the last `.` (dot included, no further dot); a name without a dot panics |
| Conversion.WebpBranchUnreachable | lib/yt2mp3.go:50-57 | as written, no thumbnail name ever selects the WebP decoder |
| Conversion.DecoderAsWritten | lib/yt2mp3.go:52-57 | as written: an extension that carries a dot never selects the WebP decoder |
| Conversion.DecoderFor | lib/yt2mp3.go:52-57 | corrected: the switch compares with ".webp"; which names select WebP is stated by `DecoderForWebpNames` |
| Conversion.DecoderForWebpNames | lib/yt2mp3.go:52-57 | corrected: the WebP decoder is chosen exactly for names ending in ".webp" |
| Conversion.ResizeImage | lib/yt2mp3.go:46-67 | as written: it panics exactly for a name without a dot. Otherwise the generic decoder runs, whatever the extension, and its error, else the encoder's, is the result |
| Conversion.ResizeImageCorrected | lib/yt2mp3.go:46-67 | corrected: a ".webp" name is decoded by the WebP decoder, any other by the generic one |
| Conversion.ResizeVariantsAgreeOffWebp | lib/yt2mp3.go:52-57 | the corrected resize differs from the source only on ".webp" names |
| Conversion.FetchThumbnail | lib/yt2mp3.go:69-99 | an empty thumbnail URL fails with "no thumbnail found" before any effect; a panic needs a dot-less URL |
| Conversion.FfmpegCall | lib/yt2mp3.go:110-135 | the video's audio is always the first input; the cover is a second input exactly when there is a thumbnail; the output is MP3 with title, artist and album tags, in that order |
| Conversion.ConvertJob | lib/yt2mp3.go:189-205 | the cover path is dropped exactly when the thumbnail failed; video, output and tags come from the plan |
| Conversion.ThumbnailFailureDropsCover | lib/yt2mp3.go:189-192 | a failed thumbnail leaves ffmpeg with the audio input alone |
| Conversion.Run | lib/yt2mp3.go:174-212 | a mkdir failure, a video failure and a convert failure each return "" with that error, in that order of precedence; a thumbnail panic crashes the process; success returns the MP3 path. ffmpeg is started exactly when the directory and the video are there and the thumbnail did not panic, and that command writes the plan's title, artist and album, reads the plan's video, and takes the cover exactly when the thumbnail was fetched |
| Conversion.Yt2Mp3 | lib/yt2mp3.go:150-213 | a nil video fails with "no video found" and starts nothing. Success returns `<outDir>/<slug>.mp3`, where the slug is the requested one or, when empty, the slug of the video's own title. When every effect succeeds and the thumbnail does not panic, that success is what happens. Any ffmpeg command it starts tags the MP3 with the video's own title, effective artist and album, whatever was submitted, and has a cover input exactly when the thumbnail was fetched |
| Conversion.Yt2Mp3Corrected | lib/yt2mp3.go:150-213 | corrected: the same run over the plan in which submitted tags win. Success returns that plan's `<outDir>/<slug>.mp3`, and any ffmpeg command it starts tags the MP3 with each submitted value that is non-empty, the video's own otherwise |
| Conversion.CorrectedAgreesOnUneditedTags | lib/yt2mp3.go:157-168 | with tags left as suggested, the corrected conversion has exactly the source's outcome: path, error and ffmpeg command |
| Conversion.EditedTitleSeparatesConversions | lib/yt2mp3.go:157-163 | once ffmpeg runs, an edited title is written by the corrected conversion and dropped by the source, which writes the video's title; the two outcomes differ |
| Conversion.VideoFailureIsFatal | lib/yt2mp3.go:184-187 | a video download error is returned whatever happened to the thumbnail, short of a panic, and ffmpeg never starts |
| Conversion.ThumbnailFailureIsNotFatal | lib/yt2mp3.go:189-205 | a thumbnail error alone still produces the MP3 at the as-written plan's path, and the ffmpeg command the conversion starts has the video's audio as its only input |
| Tasks.NewTask | lib/tasks.go:20-30 | the task is stored pending and appended to the queue. The history gets its id and drops its oldest entry once past twenty |
| Tasks.EmptyIsValid | lib/tasks.go:17-18 | the start-up state satisfies the registry invariant |
| Tasks.NewTaskPreservesValid | lib/tasks.go:20-30 | creation keeps the invariant: ids handed out in order, the history is the last twenty, the queue is the not-yet-started suffix, and a task is pending iff queued. The new id is fresh |
| Tasks.GetTasks | lib/tasks.go:32-34 | the listing is the history's tasks, in history order |
| Tasks.HistoryFacts | lib/tasks.go:24-27 | the history holds at most twenty stored tasks, strictly oldest first, and exactly `min(created, 20)` of them |
| Tasks.NewTaskListing | lib/tasks.go:23-27 | after a creation the listing is the old listing plus the new task, minus its oldest entries as needed |
| Tasks.PendingIffQueued | lib/tasks.go:50-75 | between whole steps, a stored task is pending exactly when it is still in the queue (during a conversion the popped task is pending but unqueued; see Left out) |
| Tasks.QueuedAfterEviction | lib/tasks.go:23-27 | with more than twenty queued, the oldest queued task is pending but no longer listed |
| Tasks.NewTasksPreservesValid | lib/tasks.go:20-30 | any run of creations keeps the invariant and grows the queue by one per task |
| Tasks.EvictedTaskStaysQueued | lib/tasks.go:23-27 | twenty-one creations without a step leave the first task queued, pending and unlisted |
| Tasks.Step | lib/tasks.go:50-75 | one loop iteration does nothing on an empty queue. Otherwise it pops the head and marks only that task done: a failed lookup records its error and keeps the result; a conversion records result and error. Nothing else changes |
| Tasks.StepPreservesValid | lib/tasks.go:54-75 | a step keeps the registry invariant |
| Tasks.StepIsFifo | lib/tasks.go:54-55 | the head is the oldest pending task; after the step it is gone from the queue and every other queued task remains |
| Tasks.StepOnEvictedTaskIsInvisible | lib/tasks.go:54-75 | finishing a task already evicted from the history leaves the listing unchanged |
| Tasks.NewTaskKeepsUnfinished | lib/tasks.go:20-30 | pending tasks keep carrying no result and no error after a creation |
| Tasks.StepKeepsUnfinished | lib/tasks.go:57-75 | and after a step |
| Tasks.LookupFailureLeavesNoResult | lib/tasks.go:57-62 | a task whose lookup failed ends not pending, with that error and an empty result |
| Tasks.ConversionOptions | lib/tasks.go:64-71 | the converter gets the task's slug, thumbnail and tags and `OUT_DIR` |
| Tasks.StepOutcome | lib/tasks.go:57-75 | a lookup error is recorded as such. A successful conversion records the MP3 path of the as-written plan. A failed one records "" |
| Server.InfoHandler | main.go:26-60 | a missing `url` parameter is a 400 "No video url provided"; a lookup error is a 500 with its message. Otherwise the preview echoes the parameter and carries the video's title, album and thumbnail, the slug of the title, and the artist rule |
| Server.InfoWithoutUrlSkipsLookup | main.go:27-31 | without a `url` parameter the answer does not depend on the lookup |
| Server.TaskFromBody | main.go:76-83 | the task carries the six body fields, no result and no error |
| Server.CreateTaskHandler | main.go:62-93 | an undecodable body or an empty url is a 400 and leaves the registry unchanged. Otherwise `NewTask` runs and its pending task is returned |
| Server.CreateTaskKeepsInvariants | main.go:62-93 | whatever the request, the registry stays valid and its pending tasks unfinished |
| Server.ListTasksHandler | main.go:95-103 | the reply is the history's tasks, oldest first, at most twenty |
| Server.FileHandler | main.go:105-131 | the file name is what follows the last `/`. An empty name is a 400 and an open failure a 404. Otherwise the file is served as `audio/mpeg`, with `Content-Disposition: attachment; filename=<name>` exactly when `dl` is "true" |
| Server.FileWithoutNameSkipsOpen | main.go:109-112 | with an empty name the answer does not depend on the file system |
| Server.ServesInline | main.go:122-125 | an openable file without `dl=true` gets the content type alone |
| Server.ServesAttachment | main.go:122-125 | with `dl=true` it also gets the attachment header with its name |
| Strings.LastIndexOf | lib/yt2mp3.go:50 | `strings.LastIndex`: -1 when absent, else the position of the last occurrence |
| Strings.AfterLast | main.go:106 | the suffix after the last separator (the whole string when there is none) holds no separator |
| Strings.AfterLastSlash | main.go:106 | a path `<dir>/<name>` with no `/` in `name` yields `name` as its file name |
| Strings.SuffixIsAfterLast | main.go:106 | a separator-free suffix preceded by a separator is exactly what `AfterLast` returns |
| Strings.JoinSplit | ui/src/App.tsx:262 | joining the parts of a split gives the string back |
| Strings.SplitJoin | ui/src/App.tsx:262 | splitting a join of separator-free parts gives the parts back |
| Strings.LastSegmentIsAfterLast | ui/src/App.tsx:262 | `split("/").pop()` agrees with Go's `LastIndex` slicing |
| Strings.Trim | ui/src/App.tsx:23 | `trim` returns an infix of its input with only ECMAScript whitespace outside it, and that infix neither starts nor ends with whitespace |
| Strings.TrimUnique | ui/src/App.tsx:23 | any infix with only whitespace outside it and non-whitespace ends is what `trim` returns |
| Strings.TrimPadded | ui/src/App.tsx:23 | padding a string that has non-whitespace ends with whitespace does not change its trim |
| Strings.TrimIdempotent | ui/src/App.tsx:55-58 | trimming twice changes nothing |
| Urls.BrowserTarget | ui/src/App.tsx:277 | the path sent holds no `?` or `#`, the query no `#`; an href with neither is sent whole |
| Urls.BrowserTargetSplitsAtQuestionMark | ui/src/App.tsx:311 | `path?query` comes apart into that path and query |
| Urls.ParseQuery | main.go:27 | `url.ParseQuery`: at most one pair per `&`-separated segment, none for an empty query |
| Urls.QueryGet | main.go:27 | `Values.Get`: "" for an empty query, and any non-empty answer is the value of a pair held for the key |
| Urls.Unescape | main.go:27 | `QueryUnescape` fails or shortens; a string without `%` or `+` is unchanged |
| Urls.QueryGetPair | main.go:27 | a one-pair query yields the unescaped value for its key, or "" when it does not unescape |
| Urls.QueryGetFirstPair | main.go:27 | `Get` returns the first pair's value, whatever follows the first `&` |
| Urls.QueryGetEmpty | main.go:107 | an empty query has no `dl` (or any) parameter |
| UriCoding.Utf8 | ui/src/App.tsx:32 | a character encodes to 1-4 bytes, and to its own code exactly when ASCII |
| UriCoding.Utf8String | ui/src/App.tsx:32 | an all-ASCII string is its own UTF-8 |
| UriCoding.PercentByte | ui/src/App.tsx:32 | `%XX` writes the byte's two hexadecimal digits, which Go reads back as that byte |
| UriCoding.EncodeChars | ui/src/App.tsx:32 | an encoder writes only characters it keeps, `%` and hexadecimal digits |
| UriCoding.EncodeUriComponentHasNoDelimiters | ui/src/App.tsx:32 | `encodeURIComponent` never writes `& ; = + # ?` |
| UriCoding.UnescapePercentBytes | main.go:27 | unescaping a run of escapes yields their bytes |
| UriCoding.UnescapeEncodeUriComponent | ui/src/App.tsx:32 | round trip: Go unescapes `encodeURIComponent(s)` to the UTF-8 of `s`, for every string |
| UriCoding.EncodeUriKeepsAmpersand | ui/src/App.tsx:32 | `encodeURI` leaves a `&` in place |
| UriCoding.EncodeKeepsAll | ui/src/App.tsx:32 | a string of kept characters is encoded as itself |
| Api.ApiRequest | ui/src/api.ts:9 | the URL is `/api` followed by the path; the caller's options pass through |
| Api.FetchApiAsWritten | ui/src/api.ts:5-18 | as written: a network failure rejects with a TypeError. A non-ok response with an unparsable or `null` body rejects with the null-read TypeError; with a JSON body, with its `message` or else the status text. An ok body that does not parse rejects with a SyntaxError; `null` and other JSON values resolve |
| Api.AsWrittenLosesStatusText | ui/src/api.ts:11-12 | a 502 with an HTML body rejects with the TypeError, not "Bad Gateway" |
| Api.FetchApi | ui/src/api.ts:5-18 | corrected: a non-ok response always rejects with a plain Error whose message is the body's message or the status text; ok responses as written |
| Api.FetchApiAgreesWithAsWritten | ui/src/api.ts:10-15 | the two agree exactly except on a failed response whose body is unparsable or `null` |
| Api.FailedResponseMessage | ui/src/api.ts:10-15 | a failed response's message is the body's `message` when present, else the status text, never a TypeError |
| CachedFetch.AsError | ui/src/hooks/useFetch.ts:33 | an `Error` is kept; anything else becomes "Unknown error" |
| CachedFetch.Mount | ui/src/hooks/useFetch.ts:14-18 | a mount starts idle, without error, with the cached value for its key when there is one |
| CachedFetch.Start | ui/src/hooks/useFetch.ts:20-27 | while a call is in flight nothing happens; otherwise loading starts and `fetchFn` is called |
| CachedFetch.Succeed | ui/src/hooks/useFetch.ts:29-38 | the data and the cache entry for the key become the value; other keys and the error are untouched |
| CachedFetch.Fail | ui/src/hooks/useFetch.ts:32-38 | the error is recorded, the data cleared, loading ends |
| CachedFetch.Apply | ui/src/hooks/useFetch.ts:20-39 | an event keeps the key. A settlement ends the call in flight. A refetch never touches the cache |
| CachedFetch.MountAndFetch | ui/src/hooks/useFetch.ts:41-45 | the effect fetches unless `enabled` is exactly `false` |
| CachedFetch.MountAndFetchIsConsistent | ui/src/hooks/useFetch.ts:41-45 | the bookkeeping holds after mounting |
| CachedFetch.ApplyKeepsConsistent | ui/src/hooks/useFetch.ts:20-39 | every event keeps it: `isLoading` mirrors the ref, and every call has settled but the one in flight |
| CachedFetch.RunKeepsConsistent | ui/src/hooks/useFetch.ts:20-39 | over any event sequence, at most one `fetchFn` call is ever in flight |
| CachedFetch.DoubleRefetchInvokesOnce | ui/src/hooks/useFetch.ts:21-23 | two refetches in a row call `fetchFn` once |
| CachedFetch.RunKeepsOtherKeys | ui/src/hooks/useFetch.ts:31 | a hook never changes another key's cache entry |
| CachedFetch.RunKeepsKeyCached | ui/src/hooks/useFetch.ts:31-34 | a cached key stays cached; a rejection does not evict it |
| CachedFetch.ErrorIsSticky | ui/src/hooks/useFetch.ts:32-34 | once set, the error is never cleared, not even by a later success |
| CachedFetch.RemountSeesLastSuccess | ui/src/hooks/useFetch.ts:17 | after a success a fresh mount of the same key starts from that value |
| CachedFetch.RejectHidesCachedData | ui/src/hooks/useFetch.ts:33-34 | after a rejection the hook shows no data while the cache still holds the old value |
| App.ValidVideoUrl | ui/src/App.tsx:25 | the lookup's acceptance test: non-empty and starting with "http"; its reach is stated by `FindVideoRefusesOtherSchemes` and `FindVideoAcceptsAnyHttpPrefix` |
| App.InfoPathAsWritten | ui/src/App.tsx:32 | as written: a `&` of the video URL stays in the request, and a URL of characters `encodeURI` keeps is sent verbatim |
| App.InfoPath | ui/src/App.tsx:32 | corrected: the request holds no `&` or `#` whatever the URL, and a URL of unreserved characters is sent verbatim |
| App.FindVideo | ui/src/App.tsx:14-32 | without a form or while loading, nothing happens. Otherwise the errors and the preview are cleared first. A trimmed URL that is empty or not starting with "http" then sets "URL is invalid" and ends loading. Any other URL keeps loading on, and the info request for the trimmed URL, built with `encodeURI`, goes out |
| App.DisplayMessage | ui/src/App.tsx:35 | the shown message is never empty: the error's, or "Unknown error" |
| App.FindVideoDone | ui/src/App.tsx:31-38 | a resolved lookup becomes the preview; a rejected one is reported under `url`; loading ends |
| App.LookupIsExclusive | ui/src/App.tsx:15-20 | while a lookup runs a second one sends nothing |
| App.FindVideoTrimsPastedUrl | ui/src/App.tsx:23-32 | whitespace around a valid URL is dropped and the request carries the bare URL |
| App.FindVideoRefusesOtherSchemes | ui/src/App.tsx:25-28 | "ftp://a" is refused with "URL is invalid" and no request |
| App.FindVideoAcceptsAnyHttpPrefix | ui/src/App.tsx:25 | the check is a prefix test: "httpx" is sent |
| App.SubmitForm | ui/src/App.tsx:41-76 | while loading, nothing happens. Without a previewed URL, "URL is invalid". Otherwise errors are cleared and the preview's url and thumbnail are posted with the four trimmed fields |
| App.SubmitTwicePostsTwice | ui/src/App.tsx:43-47 | nothing guards a submission in flight: a second submit posts the same body again |
| App.SubmittedFieldsAreTrimmed | ui/src/App.tsx:55-58 | posted title and slug neither start nor end with whitespace |
| App.SubmitDone | ui/src/App.tsx:78-84 | success resets the form, drops the preview and refetches the list; failure reports under `result` |
| App.FindPending | ui/src/App.tsx:88 | the first pending task, or none exactly when no task is pending |
| App.SchedulesPoll | ui/src/App.tsx:88-89 | the effect's condition: the list has data holding a pending task; `PollIffPending` states it in terms of the tasks |
| App.PollAfter | ui/src/App.tsx:87-93 | an armed poll waits 1000 ms |
| App.PollIffPending | ui/src/App.tsx:87-93 | the list is polled again exactly when it holds a pending task |
| App.FailedRefreshStopsPolling | ui/src/App.tsx:87-93 | a failed refresh clears the data, so polling stops although tasks may still be pending |
| App.DownloadUrl | ui/src/App.tsx:259-264 | a link exists exactly for a finished task with a result, and is `/api/get/` plus the result's last segment |
| App.ForcedDownloadUrl | ui/src/App.tsx:311 | the download button's link is the link followed by `?dl=true` |
| App.StatusOf | ui/src/App.tsx:333-345 | spinner exactly while pending; "Error!" exactly for a finished task with a truthy error; "Done" otherwise |
| App.CellText | ui/src/App.tsx:299-302 | an empty artist or album shows "-" |
| App.Reverse | ui/src/App.tsx:239 | `reverse()` puts element `i` at `n-1-i` |
| App.DisplayOrder | ui/src/App.tsx:238-240 | rows are the data newest first, or none without data |
| App.ReverseTwiceRestores | ui/src/App.tsx:238-240 | reversing the shared array twice restores the server's order |
| EndToEnd.TaskJson | lib/tasks.go:5-15 | the client reads every field back, with a truthy `error` exactly when the task has an error |
| EndToEnd.StatusFollowsTask | ui/src/App.tsx:333-345 | the status cell follows the server's record: spinner, "Error!" or "Done" |
| EndToEnd.Rows | ui/src/App.tsx:237-240 | the rendered rows are the listed tasks newest first |
| EndToEnd.DownloadUrlNamesFile | ui/src/App.tsx:259-264 | a task converted under slug `s` links to `/api/get/s.mp3` |
| EndToEnd.ServesNamedFileInline | main.go:105-131 | a path ending in an openable name is served inline under that name |
| EndToEnd.ServesNamedFileAttached | main.go:106-125 | with `dl=true` it is served as an attachment under that name |
| EndToEnd.PlainLinkTarget | ui/src/App.tsx:277 | following the plain link requests the file's path with no query |
| EndToEnd.ForcedLinkTarget | ui/src/App.tsx:311 | following the button requests the same path with `dl=true` |
| EndToEnd.DownloadLinkServesFile | ui/src/App.tsx:259-277 | a finished task's link makes the server serve its MP3 inline by name |
| EndToEnd.ForcedLinkServesAttachment | ui/src/App.tsx:309-311 | the download button makes it serve the same MP3 as an attachment by name |
| EndToEnd.InfoTarget | ui/src/App.tsx:32 | the corrected info request reaches `/api/info` with `url=<encodeURIComponent(url)>` as its whole query |
| EndToEnd.InfoQueryValue | main.go:27 | Go reads that parameter back as the UTF-8 of the URL |
| EndToEnd.InfoRequestCarriesUrl | ui/src/App.tsx:32 | corrected: the server receives exactly the URL entered, for every URL |
| EndToEnd.InfoTargetAsWritten | ui/src/App.tsx:32 | as written, a URL `encodeURI` keeps reaches the server unescaped as the query |
| EndToEnd.InfoRequestAsWrittenTruncates | ui/src/App.tsx:32 | as written, the server receives only the part of the URL before its first `&` |
| EndToEnd.InfoRequestAsWrittenExample | ui/src/App.tsx:32 | `http://a?b&c` arrives as `http://a?b` |
| EndToEnd.InfoRequestAsWrittenIntact | ui/src/App.tsx:32 | as written, a URL of characters `encodeURI` keeps and Go's parser leaves alone (no `# & ; % +`) reaches the server unchanged |
| EndToEnd.FoundVideoReachesServer | ui/src/App.tsx:14-32 | such a URL, typed without surrounding whitespace, is sent by the lookup and arrives at the info handler as typed |
| EndToEnd.PreviewEchoesEnteredUrl | main.go:26-40 | for such a URL that the lookup accepts, the preview answering the client's request carries the URL the user entered |
| EndToEnd.PreviewEchoesEnteredUrlCorrected | main.go:26-40 | corrected: with `encodeURIComponent`, the same holds for every ASCII URL, `&` included |
| EndToEnd.UneditedPreviewKeepsTags | ui/src/App.tsx:151-206 | submitting the suggested tags unedited converts with them, corrected or as written |
| EndToEnd.SubmittedTaskIsListedDone | lib/tasks.go:50-75 | a posted task, converted without failing effects, is listed first as "Done", linking to `/api/get/<slug>.mp3` |

## Left out

- **Concurrency.** The scheduler's goroutine polls the queue in a busy loop and has a stop channel (lib/tasks.go:36-48, 83-85). Handlers and scheduler share the slices without a lock. The model runs creations and steps as whole steps in some interleaving; data races are not modelled. So `Tasks.PendingIffQueued` holds only between steps: while the scheduler converts a task it has popped (lib/tasks.go:54-75), a `GET /api/tasks/` lists that task as pending although it is no longer queued.
- **Goroutines inside `Yt2Mp3`.** The video and thumbnail goroutines and their channels (lib/yt2mp3.go:178-192) are modelled by the outcomes they deliver. When the video fails, the thumbnail goroutine is left blocked on its unread channel; that leak is not modelled.
- **Third-party and system calls.** `goutubedl` lookup and download, `http.Get`, `os.Create`, `os.MkdirAll`, `os.Open`, `io.Copy`, `imaging.Fill`, `image`/`webp` decoding, `jpeg.Encode` and ffmpeg are outcome inputs. `slug.Make` (Go) and `slugify(...).toLowerCase()` (client) are function parameters or left out. Their source is not part of this model.
- **Slug rewriting.** The title field's `onChange` rewrites the slug input (ui/src/App.tsx:158-165). The model takes the four form values as they stand at submit time, whatever typing produced them.
- **Environment.** `OUT_DIR`, `TMP_DIR`, `PORT`, `godotenv`, `ServeUI` and `ListenAndServe` are parameters or left out.
- **How a Go `error` serialises.** The dynamic types of the errors a task can record belong to `goutubedl`, ffmpeg-go and the standard library, whose source is not part of this model. An error with no exported fields is written as `{}`, one with exported fields as those fields, one of a string kind as its message. So the tooltip of the "Error!" cell, and whether an error with an empty message counts as one, are not modelled: `EndToEnd.TaskJson` represents every error as an opaque truthy value.
- **`json.Marshal`.** Its failure paths (main.go:52-56, 85-89, 97-100) cannot fail for these types and are not modelled. Marshalling is reduced to `EndToEnd.TaskJson`.
- **Mid-body failure.** An `io.Copy` failure after the headers are written (main.go:127-130) is not modelled.
- **Routing.** `ServeMux` matching, including the redirect from `/api/info` to `/api/info/`, is not modelled: requests are taken to reach their handler. The path's percent-decoding and `filepath.Join`'s cleaning are not modelled either. `EndToEnd` restricts file names to characters these leave alone (`PathSafe`).
- **React.** Rendering, markup, disabled buttons and the null render of an empty list are not modelled. Events are modelled, not stale closures.
- **`useFetch` keys and unmounting.** `useFetch` re-keying (a new key) and updates after unmount are not modelled. Neither is the cached array being mutated by `reverse()` in place (`ReverseTwiceRestores` states only the consequence).
- **Non-JSON-ish values.** Non-string `message` fields and error values the server never sends are not modelled.
- EndToEnd.PreviewEchoesEnteredUrl: stated only for URLs without `# & ; % +` and other characters `encodeURI` escapes. For a URL with `&` the source does not echo it (`EndToEnd.InfoRequestAsWrittenTruncates`); the others are not characterised.
- EndToEnd.PreviewEchoesEnteredUrlCorrected: stated for ASCII URLs only. The model represents a Go string one character per byte, so a non-ASCII URL arrives as its UTF-8 bytes; `EndToEnd.InfoRequestCarriesUrl` states the general case.
- UriCoding.EncodeUri, UriCoding.EncodeUriComponent: a Dafny `char` is a Unicode scalar value, so a JavaScript string holding a lone surrogate cannot be represented, and the `URIError` both functions throw on one is not modelled.
- Conversion.PlanFor: when the slug is empty, the corrected plan derives it from the title the MP3 is tagged with, where the source uses the video's title. The client always submits the slug field.

## Findings

| source | as written | input that shows it | evidently intended | confidence | as-written member | corrected member |
|---|---|---|---|---|---|---|
| ui/src/api.ts:11-12 | on a failed response, `data.message` is read from the `null` the `.catch` returns for a non-JSON body | any `http.Error` reply from main.go (plain text), or a 502 with an HTML body: the caller gets TypeError "Cannot read properties of null (reading 'message')" instead of the server's text or "Bad Gateway" | `data?.message ?? res.statusText` | high; not executed | Api.FetchApiAsWritten, Api.AsWrittenLosesStatusText | Api.FetchApi, Api.FailedResponseMessage |
| lib/yt2mp3.go:50-53 | the extension is sliced with its dot, then compared with "webp" | thumbnail `https://i.ytimg.com/vi/x/hq.webp` has extension ".webp" and takes the generic branch | `case ".webp"` | medium: the branch is dead, but importing golang.org/x/image/webp registers the format, so `image.Decode` probably decodes WebP anyway; not executed | Conversion.DecoderAsWritten, Conversion.WebpBranchUnreachable, Conversion.ResizeImage | Conversion.DecoderFor, Conversion.DecoderForWebpNames, Conversion.ResizeImageCorrected |
| lib/yt2mp3.go:157-163 | title, artist and album are taken from the video; the submitted ones are never read | a task posted with title "New Title!" for a video titled "Song Name" is tagged "Song Name" | the user-edited values (the form offers them for editing) take precedence | medium; not executed | Conversion.PlanAsWritten, Conversion.AsWrittenDropsEditedTitle, Conversion.Yt2Mp3, Conversion.EditedTitleSeparatesConversions | Conversion.PlanFor, Conversion.PlansAgreeOnUneditedTags, Conversion.Yt2Mp3Corrected |
| ui/src/App.tsx:32 | the video URL is put in a query value with `encodeURI`, which leaves `&`, `+` and `#` unescaped | `https://www.youtube.com/watch?list=PL1&v=abc` reaches the handler as `https://www.youtube.com/watch?list=PL1`, a playlist rather than the video (an instance of the general lemma; `EndToEnd.InfoRequestAsWrittenExample` spells out `http://a?b&c`) | `encodeURIComponent` | high; not executed | App.InfoPathAsWritten, App.FindVideo, EndToEnd.InfoRequestAsWrittenTruncates | App.InfoPath, EndToEnd.InfoRequestCarriesUrl |
