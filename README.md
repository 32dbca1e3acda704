# Watermark nuker: a Dafny model of its orchestration logic

The application lets a user pick or drop an image, optionally type a hint,
and have a remote image model (Gemini 2.5 Flash Image) remove watermarks from
it. This project models the three sequential pieces of logic around that
remote call and proves what they promise:

- `GeminiService` (services/geminiService.ts): the editing directive built
  from five fixed sentences, an optional "Specific user requirement" section
  and a closing sentence; the two-part request (image first, prompt second);
  and the scan over the first candidate's parts for the first one carrying
  inline image data.
- `App` (App.tsx): the page's session state as a `Session` class with the
  five state fields, the handlers `handleImageSelect`, `handleRemoveWatermark`
  and `handleReset`, the `FileReader` callbacks as events, the
  `split(',')[1]` data-URI strip, and the preview-URL revoke effect as ghost
  sets of live and revoked blob URLs.
- `Upload` (components/UploadArea.tsx): the `isDragOver` flag, the picker
  and drop handlers with the `disabled` guard and the `image/` prefix check,
  and the `onImageSelected` callback recorded as a trace of files.
- `JsString`: the JavaScript string built-ins these rely on (`trim`, `split`,
  `startsWith`), with ECMAScript's whitespace set for `trim`.
- `Types` (types.ts): `LoadingState` and the browser `File` as values.
- `Scenarios`: client runs of a `Session` written against the contracts: a
  successful removal, a failed remote call, a response with a text part
  before the image, and a reply arriving after a reset.

External effects are parameters. The remote call's outcome is a `Reply`
handed in: either a response value or a failure. The `FileReader` becomes
the events `OnLoadEnd` (with the data URL read and the reply) and `OnError`.
A synchronous throw while starting the read is the `setupThrows` argument
of `HandleRemoveWatermark`. `URL.createObjectURL` is modelled by a counter,
so that the n-th URL created is `BlobUrl(n)`. `alert` is recorded in a
`notices` trace.

The model keeps these behaviours of the code, which a reader might not expect:

- The code does not ignore a reply that arrives after a reset or after a new
  selection (App.tsx:44-62 never checks). `OnLoadEnd` applies it whatever the
  state is, and `Scenarios.StaleReplyAfterReset` shows a session with no
  image that still holds a result URL and a success status. The page does not
  display it, since the editor area renders only with an image (App.tsx:111).
- Only the first candidate's parts are scanned (services/geminiService.ts:57),
  not the parts of every candidate.
- An undefined `content` or `parts` in the first candidate makes the scan
  throw a `TypeError`, modelled as `MalformedResponse`. Like every other
  service error, the page reports it with the generic retry message.
- `split(',')[1]` is the text between the first and the second comma, and it
  is `undefined` when there is no comma. The model keeps both cases:
  `DataUriPayload` returns an `Option`, and the request's `data` is then
  absent.

## Model

| member | source | states |
|---|---|---|
| `JsString.SkipForward` | services/geminiService.ts:31 | the scan that `trim()` does from the left stops at the first character that is not whitespace, having passed only whitespace (or at the end) |
| `JsString.SkipBackward` | services/geminiService.ts:31 | the scan that `trim()` does from the right stops after the last character, in its range, that is not whitespace, having passed only whitespace (or at the start of the range) |
| `JsString.TrimStart` | services/geminiService.ts:31 | the result is a suffix of the input, everything dropped is ECMAScript whitespace, and the result does not start with whitespace |
| `JsString.TrimEnd` | services/geminiService.ts:31 | the result is a prefix of the input, everything dropped is whitespace, and the result does not end with whitespace |
| `JsString.Trim` | services/geminiService.ts:31 | `trim()` is a contiguous slice of its input with only whitespace before and after it, and neither starts nor ends with whitespace |
| `JsString.TrimEmptyIffBlank` | services/geminiService.ts:31 | `trim()` gives the empty string exactly when every character is whitespace |
| `GeminiService.HasHint` | services/geminiService.ts:31 | `instructions && instructions.trim().length > 0` holds exactly when the instructions are present and hold a non-whitespace character |
| `GeminiService.ComposePrompt` | services/geminiService.ts:25-35 | every prompt starts with the fixed five-sentence directive and ends with "\n\nReturn only the processed image." |
| `GeminiService.BuildPrompt` | services/geminiService.ts:25-35 | the prompt built by successive appends is the composed prompt |
| `GeminiService.PromptShape` | services/geminiService.ts:31-35 | without a hint the prompt is exactly directive + closing; with one it is directive + "\n\nSpecific user requirement: " + the untrimmed hint + closing |
| `GeminiService.RecoverHintOfPrompt` | services/geminiService.ts:31-35 | the hint can be read back verbatim from between the requirement header and the closing sentence, and a hint-less prompt has no such section |
| `GeminiService.BuildRequest` | services/geminiService.ts:37-52 | the request names the model and has exactly two parts: first the inline data with the given media type and payload, then the composed prompt as text (so `PromptShape` and `RecoverHintOfPrompt` apply to what is sent) |
| `GeminiService.RequestCarriesInputs` | services/geminiService.ts:25-52 | the request's text part starts with the directive, ends with the closing sentence, and the hint is recoverable from it verbatim |
| `GeminiService.CarriesImage` | services/geminiService.ts:59 | `part.inlineData && part.inlineData.data`: the part has inline data whose `data` is a non-empty string |
| `GeminiService.FirstImageIndex` | services/geminiService.ts:58-62 | the index found is that of a part carrying non-empty inline data, all earlier parts carry none, and `|parts|` means none does |
| `GeminiService.ImageFromResponse` | services/geminiService.ts:56-65 | a success is never empty; no candidates gives the "no image data" error; a first candidate without `content` or `parts` gives the `TypeError` |
| `GeminiService.ImageFromResponseSpec` | services/geminiService.ts:56-65 | success yields non-empty data from the earliest qualifying part of the first candidate; no candidates, or no qualifying part, gives the "no image data" error; missing `content` or `parts` gives the `TypeError`; a qualifying part always leads to success |
| `GeminiService.OnlyFirstCandidateMatters` | services/geminiService.ts:56-57 | two responses with the same first candidate extract the same result, whatever the later candidates hold |
| `GeminiService.ExtractImage` | services/geminiService.ts:56-65 | the in-order scan with early return computes the extraction result, including the error cases |
| `GeminiService.RemoveWatermarkFromImage` | services/geminiService.ts:15-71 | the request sent is the two-part request; a failed call rejects with its own error; a response resolves or rejects as extraction says |
| `JsString.Split` | App.tsx:47 | `split` yields at least one piece and no piece contains the separator |
| `JsString.JoinSplit` | App.tsx:47 | joining the pieces of a split with the separator gives back the original string |
| `JsString.SplitJoin` | App.tsx:47 | splitting a join of separator-free pieces gives back those pieces |
| `JsString.SplitAtFirst` | App.tsx:47 | the text before the first separator is the first piece and the rest splits on its own |
| `App.DataUriPayload` | App.tsx:47 | `split(',')[1]` is defined exactly when the data URL contains a comma, and is then free of commas |
| `App.DataUriPayloadOf` | App.tsx:47 | for header + "," + payload with a comma-free header, the strip gives the payload up to its first comma, and exactly the payload when that is comma-free |
| `App.ResultUrl` | App.tsx:53 | the result URL starts with "data:image/png;base64," and the text after that prefix is the result unchanged |
| `App.ResultUrlRoundTrip` | App.tsx:47-53 | stripping the data-URI prefix of the result URL gives back the comma-free base64 result |
| `App.Session.constructor` | App.tsx:10-14 | initial state: no image, preview or result, idle with no message, empty hint, no blob URL created |
| `App.Session.HandleImageSelect` | App.tsx:17-32 | the file and a fresh preview URL are stored, the previous preview is revoked, the result is cleared, the status is idle with no message and the hint is empty |
| `App.Session.EditInstructions` | App.tsx:144 | only the hint changes |
| `App.Session.HandleRemoveWatermark` | App.tsx:34-73 | without an image nothing changes; with one the status is processing with the progress message and a read is pending that captures the image and hint, unless starting it throws, which gives the unexpected-error state |
| `App.Session.OnLoadEnd` | App.tsx:44-63 | the service is sent the stripped payload with the captured media type and hint; on success the result URL is "data:image/png;base64," + result with status success and no message; on any failure status error with the retry message |
| `App.Session.OnError` | App.tsx:65-67 | the status becomes error with "Error reading file." and nothing else changes |
| `App.Session.HandleReset` | App.tsx:75-81 | image, preview and result are cleared, status idle, hint empty, and the preview URL is revoked by the effect cleanup at App.tsx:17-21, so no blob URL stays live |
| `JsString.StartsWith` | components/UploadArea.tsx:36 | `s.startsWith(prefix)`: the prefix is no longer than `s` and equals its first characters |
| `Upload.IsImageType` | components/UploadArea.tsx:36 | `file.type.startsWith('image/')` |
| `Upload.FirstFile` | components/UploadArea.tsx:14 | `files && files[0]`: the first file when the list exists and is not empty, otherwise nothing (also the test at line 34) |
| `Upload.UploadArea.constructor` | components/UploadArea.tsx:9-11 | the drag flag starts false and nothing has been selected or noticed |
| `Upload.UploadArea.HandleFileChange` | components/UploadArea.tsx:13-17 | the first picked file is passed on exactly when there is one, without checking its type |
| `Upload.UploadArea.HandleDragOver` | components/UploadArea.tsx:19-22 | the drag flag is set when not disabled and left alone otherwise |
| `Upload.UploadArea.HandleDragLeave` | components/UploadArea.tsx:24-27 | the drag flag is cleared |
| `Upload.UploadArea.HandleDrop` | components/UploadArea.tsx:29-42 | the drag flag is cleared; when disabled or with no files nothing else changes; otherwise the first file is passed on exactly when its type starts with "image/", and a notice is raised when it does not |

Every `Session` method keeps `Valid()`, which states: an image and its
preview come and go together; the only live blob URL is the current preview
and every other one has been revoked; the status is never `uploading`; there
is a message only with processing (the progress text) and with error (one of
the three error texts); a success always has a result URL, and that URL
starts with "data:image/png;base64,". Every `UploadArea` method keeps
`disabled ==> !isDragOver`.

## Left out

- Rendering, styling and the header, footer and upload-area markup
  (App.tsx:83-219, components/Header.tsx, components/UploadArea.tsx:44-89):
  no behaviour beyond display. This includes the UI's disabling of the
  buttons and the hint input while processing (App.tsx:127, 147, 154). The
  handlers themselves have no such guard, and the model keeps them unguarded.
- The download logic (components/ComparisonView.tsx:10-40): fetch, Blob,
  DOM anchors and object URLs are browser I/O.
- The real `FileReader`, the Gemini client and its `generateContent` call
  (services/geminiService.ts:5, 37-52): foreign calls. Their outcomes are
  inputs to the model. The base64 encoding of the file's bytes is part of
  the reader and is not modelled; the data URL read is an event argument.
- `console.error` logging (services/geminiService.ts:68, App.tsx:57, 70): no
  effect on state.
- After a failed read the browser also fires `loadend`, with a null result.
  `null.split` then throws before the service is called. That rejection is
  unhandled and changes no state, so the model has no event for it.
- The `disabled` prop of `UploadArea` is fixed when the area is built
  (`const disabled`). In React it may change between renders; if it turned
  true during a drag, `isDragOver` could stay true while disabled, which the
  model's `disabled ==> !isDragOver` rules out. The page never passes the
  prop (App.tsx:106), so it is always false there.
- The revoke on unmount (the effect cleanup when the page goes away): the
  model has no unmount event.
- Interleavings of asynchronous callbacks: events are applied one at a time.
  The model does not claim that stale replies are ignored, because the code
  does not ignore them.
- The size display in megabytes (App.tsx:124): floating-point division and
  `toFixed`.
- `ImageMimeType` and `ProcessedImageResult` (types.ts:1-4, 11-17): declared
  but never used.
- JavaScript strings are sequences of UTF-16 code units while the model's
  strings are sequences of Unicode scalar values. Only emptiness after `trim`
  and the positions of commas matter here, and none of the whitespace
  characters or the comma lies outside the Basic Multilingual Plane.
