# Stoke Vids: a verified model of the generation session

Stoke Vids is a browser front-end. The user uploads an image, writes a prompt and picks
an aspect ratio. The app then asks a video-generation service for a clip, polls the job
until it is done, downloads the result and plays it. Sign-in is optional.

This project models the logic of that front-end in Dafny:

- `App` (app.dfy) models the session of App.tsx. It is a `Session` class with one field
  per piece of `useState` state and one method per handler. Each asynchronous completion
  is a method of its own: the file read (`ReadComplete`), the generation job
  (`CompleteGeneration`) and the auth subscription (`AuthStateChanged`). The module also
  holds the cyclic loading-message ticker, the rule that enables the Generate button,
  and the auth gate that picks the page content.
- `GeminiService` (geminiservice.dfy) models `generateVideoFromImage`: the key check,
  the poll loop, the classification of the finished operation, the download URL and the
  error wrapping. The SDK, `fetch` and the file reader are an oracle, the
  `Environment`. Its `replies[0]` answers the submission and `replies[k]` answers the
  k-th status query. The method returns what it sent out as a `Trace`: the request, the
  operation passed to each query, and the fetched URL.
- `FileUtils` (fileutils.dfy) models the payload extraction of `fileToBase64`.
- `VideoPlayer`, `ImageUploader` and `AspectRatioSelector` model the ratio-to-class
  mappings, the image filter with the drag flag, and the ratio buttons.
- `JsStrings` (jsstrings.dfy) defines the JavaScript built-ins the core relies on:
  `indexOf`, `split`, `startsWith` and `trim`, with ECMAScript's white-space set.
- `Wrappers` (wrappers.dfy) defines `Option` (for `null`/`undefined`) and `Result`.
  A `Failure` carries a thrown error's `message`; the empty string stands for an error
  without a message.

Facts about the code that the model keeps as they are:

- Nothing checks whether a completion still belongs to the current session. The file
  read and the generation result are written unconditionally (App.tsx:67-69, 82-87), so
  `CompleteGeneration` and `ReadComplete` write their result in every state, and
  `LateCompletionAfterReset` shows a reset session being filled in by a late result.
- `handleReset` leaves `loadingMessage` unchanged (App.tsx:91-99).
- `handleGenerateVideo` checks only `!imageFile || !prompt` and ignores `appState`
  (App.tsx:75), while the button checks the state and the trimmed prompt (App.tsx:128).
- The uploader shows the preview when `imageDataUrl` is truthy (ImageUploader.tsx:57),
  so an empty string also gives the drop zone.

## Model

| member | source | states |
|---|---|---|
| `FileUtils.ExtractBase64` | utils/fileUtils.ts:8-13 | a resolved payload is non-empty and contains no comma; any rejection carries "Failed to extract base64 string from file." |
| `FileUtils.FileToBase64` | utils/fileUtils.ts:1-17 | the promise resolves exactly when the read completed and the text between its first comma and the next comma (or the end) is non-empty, and then with exactly that text, which contains no comma; a failed read rejects with an error that has no message, and a completed read that is not cut rejects with "Failed to extract base64 string from file." |
| `FileUtils.ExtractIsSecondSegment` | utils/fileUtils.ts:8-13 | extraction resolves with exactly the text strictly between the first comma and the next comma (or the end) when that text is non-empty, and rejects in every other case |
| `FileUtils.NoCommaRejected` | utils/fileUtils.ts:8-12 | a data URL without a comma is always rejected |
| `FileUtils.JpegDataUrlExample` | utils/fileUtils.ts:6-8 | "data:image/jpeg;base64,LzlqLzRBQ..." yields "LzlqLzRBQ..." |
| `JsStrings.Split` | utils/fileUtils.ts:8 | `split(',')` gives at least one piece, and no piece contains the separator |
| `JsStrings.JoinSplit` | utils/fileUtils.ts:8 | the pieces joined back with the separator give the original string |
| `JsStrings.SplitAtFirst` | utils/fileUtils.ts:8 | the text before the first separator is the first piece, and the rest is split on its own |
| `JsStrings.TrimEmptyIffBlank` | App.tsx:128 | `trim()` gives the empty string exactly when every character is ECMAScript white space |
| `GeminiService.GenerateVideoFromImage` | services/geminiService.ts:7-64 | a missing key fails with "API_KEY environment variable is not set." before any request; otherwise the request carries the model, prompt, base64 payload, MIME type, one video and the ratio; the number of status queries equals the position of the first done (or thrown) reply, and each query gets the previous reply's operation unchanged; then, in order: a thrown error is rethrown, a reported error gives "Video generation failed: " + message, a missing link gives the no-link message, the fetched URL is link + "&key=" + key, a non-ok response gives "Failed to download video. Status: " + status text, and an ok one gives the object URL; every failure message is non-empty |
| `GeminiService.FirstSettled` | services/geminiService.ts:32-36 | the loop stops at the first reply that is done or threw: that reply settles and none before it does |
| `GeminiService.DownloadLink` | services/geminiService.ts:42-45 | a link exists exactly when the response, its video list, a first video, its `video` and a non-empty `uri` are all present; the link is then exactly that `uri` |
| `GeminiService.Rethrow` | services/geminiService.ts:60-63 | a rethrown error keeps its own message, or gets "An unexpected error occurred during video generation." when the message is empty; the result is never empty |
| `GeminiService.DownloadUrl` | services/geminiService.ts:49 | the download URL is the link, then "&key=", then the API key |
| `VideoPlayer.AspectRatioClass` | components/VideoPlayer.tsx:10-20 | the mapping is total over three classes; '9:16' is the only ratio that gives 'aspect-[9/16]' and '1:1' the only one that gives 'aspect-square' |
| `VideoPlayer.ContainerWidthClass` | components/VideoPlayer.tsx:22-32 | the mapping is total over three classes; '9:16' is the only ratio that gives 'max-w-sm' and '1:1' the only one that gives 'max-w-lg' |
| `VideoPlayer.UnknownRatioIsLandscape` | components/VideoPlayer.tsx:16-30 | every ratio other than '9:16' and '1:1' gets exactly the classes of '16:9': 'aspect-video' and 'max-w-2xl' |
| `AspectRatioSelector.RatiosDistinct` | components/AspectRatioSelector.tsx:9-13 | the button values are pairwise distinct and are exactly '16:9', '9:16' and '1:1' |
| `AspectRatioSelector.SelectedButtons` | components/AspectRatioSelector.tsx:22-23 | a button is marked selected exactly when its value equals `selectedRatio` |
| `AspectRatioSelector.ExactlyOneSelected` | components/AspectRatioSelector.tsx:9-23 | exactly one button is selected when `selectedRatio` is one of the three values, and none otherwise |
| `AspectRatioSelector.OnRatioClick` | components/AspectRatioSelector.tsx:27 | a click reports a value of the closed set, and that value selects exactly the clicked button |
| `ImageUploader.HandleFile` | components/ImageUploader.tsx:14-18 | a file is forwarded exactly when it is present and its type starts with "image/", and then unchanged |
| `ImageUploader.FileChange` | components/ImageUploader.tsx:46-49 | the file input forwards its first file when the list is present and non-empty and that file is an image, and nothing otherwise |
| `ImageUploader.View` | components/ImageUploader.tsx:55-83 | the preview of `imageDataUrl` is drawn exactly when it is present and non-empty; otherwise the drop zone is drawn, highlighted as `isDragging` says |
| `ImageUploader.OnlyFirstFileCounts` | components/ImageUploader.tsx:38-49 | two file lists with the same first file forward the same thing, from a drop or from the file input |
| `ImageUploader.Uploader.constructor` | components/ImageUploader.tsx:11 | the drag flag starts false |
| `ImageUploader.Uploader.DragEnter` | components/ImageUploader.tsx:20-24 | drag enter sets the flag |
| `ImageUploader.Uploader.DragLeave` | components/ImageUploader.tsx:26-30 | drag leave clears the flag |
| `ImageUploader.Uploader.DragOver` | components/ImageUploader.tsx:32-36 | drag over changes nothing |
| `ImageUploader.Uploader.Drop` | components/ImageUploader.tsx:38-44 | a drop clears the flag and forwards the first dropped file exactly when there is one and it is an image |
| `App.LoadingMessagesDistinct` | App.tsx:15-23 | the list has seven messages and none appears twice |
| `App.NextInCycle` | App.tsx:54-58 | the updater always yields an entry of the list, and the first entry for an unlisted one |
| `App.NextInCycleAdvances` | App.tsx:55-57 | in a list without repeats, the entry at position i is followed by the entry at (i+1) mod length |
| `App.AfterTicksRotates` | App.tsx:53-58 | after n ticks a listed entry has moved n single steps round the list |
| `App.FullLapReturns` | App.tsx:53-58 | as many ticks as the list is long bring a listed entry back |
| `App.NextLoadingMessage` | App.tsx:54-58 | each tick yields one of the seven loading messages |
| `App.NextAdvancesIndex` | App.tsx:55-57 | the message at index i is followed by the message at index (i+1) mod 7 |
| `App.NextFromUnlisted` | App.tsx:55-57 | a message not in the list is followed by the first one |
| `App.SevenTicksReturn` | App.tsx:15-23 | seven ticks bring a listed message back |
| `App.GenerateDisabledIff` | App.tsx:128 | the button is disabled exactly while generating or while the prompt is only white space |
| `App.ClickEffectiveIff` | App.tsx:74-155 | with the disabled button and the handler's guard together, a click has effect exactly when an image is present, the prompt has a non-white-space character and no generation runs |
| `App.RenderContent` | App.tsx:130-179 | generating shows the loading message; a ready video shows the player with its ratio classes when the URL is non-empty, and nothing otherwise; every other state shows the uploader, with the controls outside Idle, the button enabled per the disabled rule, and the error panel in Error showing the `error` text (none when it is null) |
| `App.Gate` | App.tsx:185-191 | while auth is loading the page shows "Initializing"; after that it shows the content exactly when a user is signed in or auth is not configured, and the login page otherwise |
| `App.Session.View` | App.tsx:181-196 | the page is the gate applied to the content rendered from the session's current fields |
| `App.Session.ErrorPanelShowsMessage` | App.tsx:163-175 | in a valid session, content that passed the gate shows the error panel exactly in the Error state, and the panel then shows the stored message, which is never empty |
| `App.Session.constructor` | App.tsx:26-36 | the initial state is Idle with no file, no preview, empty prompt, ratio '16:9', no video, no error, the first loading message, no user and auth loading |
| `App.Session.MountAuth` | App.tsx:38-43 | without auth, auth loading ends at mount; nothing else changes |
| `App.Session.AuthStateChanged` | App.tsx:44-47 | the subscription stores the reported user and ends auth loading |
| `App.Session.UploadImage` | App.tsx:64-72 | from any state, upload sets the file and ImageSelected and keeps the preview, prompt and ratio |
| `App.Session.ReadComplete` | App.tsx:67-69 | the completed read sets the preview to the reader's result in any state, null after a failed read |
| `App.Session.EditPrompt` | App.tsx:147-149 | the prompt box replaces the prompt and nothing else |
| `App.Session.SelectAspectRatio` | App.tsx:146 | the i-th ratio button sets the ratio to its value and nothing else |
| `App.Session.SubmitGeneration` | App.tsx:74-80 | with no image file or an empty prompt no field changes; otherwise the state is Generating, the error is cleared, the loading message is the first one, image, prompt and ratio are kept, and the service receives exactly the file, prompt and ratio |
| `App.Session.ClickGenerate` | App.tsx:153-155 | a click starts a generation exactly when an image is present, the prompt is not blank and the state is not Generating, and otherwise changes nothing |
| `App.Session.CompleteGeneration` | App.tsx:81-88 | success stores the URL and gives VideoReady; failure gives Error with the error's message, or 'An unknown error occurred.' when it is empty; both happen in any state |
| `App.Session.Reset` | App.tsx:91-99 | from any state: Idle, no file, no preview, empty prompt, no video, no error, ratio '16:9'; the loading message is kept |
| `App.Session.GoogleSignIn` | App.tsx:101-116 | without auth: Error with the unavailability message; a failed popup: Error with "Failed to sign in: " + message; a successful popup changes nothing |
| `App.Session.SignOut` | App.tsx:118-126 | without auth, or when signing out fails, nothing changes; otherwise the session is reset |
| `App.Session.Tick` | App.tsx:51-62 | while Generating, a tick replaces the message by its successor; in any other state no timer runs and nothing changes |

Every `Session` method also keeps `Session.Valid()`. This invariant says six things.
The ratio is one the selector offers. The loading message is one of the seven.
Generating implies an image file. VideoReady implies a video URL, Error implies an
error message, and a stored error message is never empty.

## Left out

- Vendor and browser I/O: `GoogleGenAI`, `getVideosOperation`, `fetch`, `response.blob`,
  `URL.createObjectURL` and `FileReader` are inputs of the model. Their answers are fixed
  in advance in `Environment`, or passed to the event methods.
- GeminiService.GenerateVideoFromImage: runs in which the service never reports done
  are not modelled (the method requires a settling reply in the oracle). The source
  loop has no attempt cap and would poll forever.
- A rejection of `response.blob()` is not modelled. The blob step always succeeds with
  the oracle's object URL.
- Time: the 10-second poll delay and the 3-second interval are not modelled. A poll is
  one step of the loop and a tick is a call to `Session.Tick`.
- Errors whose `message` is `undefined` inside a template string (a reported operation
  error, a sign-in error) would print the text "undefined". Messages are modelled as
  strings.
- Interleaving is modelled only through the explicit event methods. No claim is made
  that stale completions are discarded, because the code does not discard them.
- services/firebase.ts is not part of this model. Its configuration check decides whether
  `auth` exists, and that is the `authConfigured` constant of `Session`. Sign-in and
  sign-out outcomes are parameters.
- components/LoadingIndicator.tsx and types.ts are not part of this model. The
  `AppState` values are taken from their uses in App.tsx.
- Header, Footer, Login, ConfigError and icons are static markup. Header.tsx ignores the
  `user` and `onSignOut` props, so sign-out has no caller in the UI. `Session.SignOut`
  still models the handler.
- `handleClick`, which opens the file picker, and the `accept="image/*"` attribute are
  browser behaviour.
- Console logging, JSX structure, CSS and styling beyond the two class mappings are not
  modelled.
