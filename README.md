# Safety-compliance checker: a Dafny model

The application lets an operator photograph or upload an image of a worker,
sends it to an external multimodal model, and shows a five-item safety report
(white helmet, helmet strap, orange suit, sleeve buttons, safety shoes). This
project models its logic in Dafny and proves properties of that model:

- `app.dfy` (module `App`): the page controller of `App.tsx`. The class
  `AppController` has the five state fields and one method per handler. The
  asynchronous `handleAnalyze` is split at its `await`. `BeginAnalyze` is the
  part before the call. `CompleteAnalyze` is the try/catch/finally, and it takes
  the service's answer as a parameter. `HandleAnalyze` runs both. `Render` says
  what the page shows for a state. `Consistent` is the invariant every handler
  keeps.
- `camera.dfy` (module `Camera`): the camera overlay of
  `components/CameraView.tsx`. Tracks, the stream, the video element and the
  canvas are classes. The view holds `streamRef` and `error`. Its cleanup stops
  every track in a loop and then drops the reference. A ghost event log records
  the `onCapture` and `onClose` callbacks and every track stop, in order.
  `Session` runs one mount-to-unmount cycle and proves that each granted track
  is stopped exactly once, however the overlay is left.
- `gemini_service.dfy` (module `GeminiService`): `analyzeImageForSafety` as a
  pure function. It covers the payload cut (`split(',')[1]`), the two request
  parts, trimming the reply before parsing, and mapping every failure to one
  message. The SDK call is the parameter `generate`. `JSON.parse` is the partial
  function `parse`.
- `js_string.dfy` (module `JsString`): the JavaScript `split` and `trim`
  built-ins the service relies on, with their defining properties.
- `result_display.dfy` (module `ResultDisplay`): `ResultRow` and
  `AnalysisResultDisplay` as pure functions from the result record to five rows.
- `safety_types.dfy`, `wrappers.dfy`: the record types of `types.ts`, and
  Option/Result.

In these points the model follows the code as written:

- The service returns the parsed value unchecked (an `as` cast). So the model
  is generic in the parsed value's type. It does not claim that a successful
  analysis always has all five checks. A reply that parses to `null` is a
  success too: the page then stores no result and shows no error.
- Messages and labels are the Vietnamese strings of the code.
- `!imageSrc` and `error && …` use JavaScript truthiness. An empty string counts
  as "no image" or "no error" (`App.Present`).
- The canvas is resized before the 2D-context test. A capture with a video and
  a canvas but no context still resizes the canvas. It delivers nothing and
  releases nothing.
- A new grant replaces `streamRef` without stopping a stream held before. The
  effect runs once per mount, so this only matters on the race listed below.

## Model

| member | source | states |
|---|---|---|
| SafetyTypes.ChecksRoundTrip | types.ts:7-13 | the five named checks, listed in declaration order, determine the record |
| JsString.Split | services/geminiService.ts:29 | `split(',')` gives at least one piece, no piece contains the separator, and there is one piece iff the separator is absent |
| JsString.SplitJoin | services/geminiService.ts:29 | joining the pieces of a split gives the input back |
| JsString.JoinSplit | services/geminiService.ts:29 | splitting a join of separator-free pieces gives the pieces back |
| JsString.IndexOf | services/geminiService.ts:29 | the first occurrence of a character, or none iff the character is absent |
| JsString.UpTo | services/geminiService.ts:29 | the longest separator-free prefix, ending at the end or at a separator |
| JsString.FirstPiece | services/geminiService.ts:29 | the first piece of a split is the text before the first separator |
| JsString.SecondPiece | services/geminiService.ts:29 | the second piece is the text between the first and the next separator |
| JsString.TrimStart | services/geminiService.ts:60 | a suffix of the input, all cut characters whitespace, not starting with whitespace |
| JsString.TrimEnd | services/geminiService.ts:60 | a prefix of the input, all cut characters whitespace, not ending with whitespace |
| JsString.Trim | services/geminiService.ts:60 | `trim()` is no longer than its input and neither starts nor ends with whitespace |
| JsString.TrimDecompose | services/geminiService.ts:60 | every text is whitespace, then its trimmed text, then whitespace |
| JsString.TrimUnique | services/geminiService.ts:60 | trim returns exactly the middle part between leading and trailing whitespace |
| JsString.TrimIdempotent | services/geminiService.ts:60 | trimming twice is trimming once |
| JsString.TrimAbsorbsPadding | services/geminiService.ts:60 | whitespace added around a text does not change its trim |
| GeminiService.ImagePayload | services/geminiService.ts:29 | the payload is undefined iff the data URL has no comma, and never contains a comma |
| GeminiService.PayloadFollowsFirstComma | services/geminiService.ts:29 | the payload is the text after the first comma, up to the next comma if any |
| GeminiService.PayloadOfDataUrl | services/geminiService.ts:29 | a data URL `header,payload` yields exactly its payload |
| GeminiService.RequestParts | services/geminiService.ts:31-53 | exactly two parts: the image (declared `image/jpeg`, carrying the payload) and then the instruction |
| GeminiService.RequestIgnoresHeader | services/geminiService.ts:29-35 | the data URL's own header never reaches the request; the declared type is always JPEG |
| GeminiService.AnalyzeImageForSafety | services/geminiService.ts:28-67 | success iff the call answered with a text whose trimmed form parses; the parsed value is returned as is; every failure carries the one fixed message |
| GeminiService.OneCallPerInvocation | services/geminiService.ts:50-58 | the outcome depends on the SDK only through its answer to the first call, made with the request built from the image: there is no retry |
| GeminiService.PaddedReplyAnalyzesAlike | services/geminiService.ts:60-61 | whitespace around the reply text never changes the outcome |
| GeminiService.FailuresAreIndistinguishable | services/geminiService.ts:64-66 | any two failed analyses fail identically: the cause is not propagated |
| ResultDisplay.ResultRow | components/AnalysisResultDisplay.tsx:18-31 | check icon, "Tuân thủ" and green iff compliant, otherwise cross icon, "Không tuân thủ" and red; label and reason shown verbatim |
| ResultDisplay.AnalysisResultDisplay | components/AnalysisResultDisplay.tsx:37-52 | exactly five rows; row i is the i-th field under the i-th fixed label |
| ResultDisplay.ReadReport | components/AnalysisResultDisplay.tsx:43-47 | a report can be read back iff it has five rows |
| ResultDisplay.ReportRoundTrip | components/AnalysisResultDisplay.tsx:43-47 | every verdict and reason can be read back from the report: nothing is lost |
| ResultDisplay.LabelsAreFixed | components/AnalysisResultDisplay.tsx:43-47 | each row's label depends on its position only, never on the check values |
| ResultDisplay.RowDependsOnItsFieldOnly | components/AnalysisResultDisplay.tsx:43-47 | row i is the same for two results iff their field i is the same |
| ResultDisplay.RowIsCoherent | components/AnalysisResultDisplay.tsx:21-26 | icon, status text and colour of a row always agree |
| App.ShownErrorMessage | App.tsx:63 | the shown error is never empty: the message itself, or the fallback when it is empty |
| App.ServiceFailureShownVerbatim | App.tsx:59-63 | a failure of the analysis service is shown with the service's own fixed message |
| App.Render | App.tsx:76-135 | overlay iff the camera is open, loader iff loading; chooser iff the image is null or empty, otherwise a preview of the image whose button is disabled and relabelled exactly while loading; error banner iff the error is non-empty, showing it; report iff a result, made of its five rows |
| App.ScreenModes | App.tsx:76-135 | chooser iff the image is null or empty, loader iff loading, report iff a result; at most one of loader, report and error banner; analyze disabled exactly while loading |
| App.AppController.constructor | App.tsx:24-28 | initial state: no image, no result, not loading, no error, camera closed |
| App.AppController.HandleImageUpload | App.tsx:30-41 | no file changes nothing; a file sets the image and clears result and error; loading and camera untouched |
| App.AppController.HandleCapture | App.tsx:43-48 | sets the image to the captured data URL, clears result and error, closes the camera |
| App.AppController.OpenCamera | App.tsx:94 | opens the camera overlay and changes nothing else |
| App.AppController.CloseCamera | App.tsx:78 | closes the camera overlay and changes nothing else |
| App.AppController.BeginAnalyze | App.tsx:50-57 | without an image (null or empty): the no-image error, no call, image, result and loading unchanged; with one: loading set, result and error cleared, the image sent |
| App.AppController.CompleteAnalyze | App.tsx:59-66 | loading ends on both paths; success stores the parsed value (a result, or none for `null`) and clears the error, failure stores the shown message; exactly one of result and error is set unless the reply parsed to `null`; the image is kept |
| App.AppController.HandleAnalyze | App.tsx:50-67 | a call is made iff an image is present; afterwards loading is off, the image is unchanged for a retry, and exactly one of result and error is set unless the reply parsed to `null` |
| App.AppController.ResetState | App.tsx:69-74 | clears image, result and error, ends loading, leaves the camera flag |
| Camera.ReleaseStopsEachTrackOnce | components/CameraView.tsx:25 | a release of distinct tracks stops each exactly once and nothing else |
| Camera.MediaStreamTrack.Stop | components/CameraView.tsx:25 | a stopped track has ended |
| Camera.CameraView.constructor | components/CameraView.tsx:17-21 | a mounted view holds no stream and shows no error |
| Camera.CameraView.CleanupCamera | components/CameraView.tsx:23-28 | with a stream held, every track is stopped in order and the reference cleared; with none, nothing happens |
| Camera.CameraView.StartCamera | components/CameraView.tsx:30-48 | only a grant stores a stream (and feeds the video); unsupported or rejected access sets its message and stores nothing |
| Camera.CameraView.HandleCapture | components/CameraView.tsx:55-69 | canvas sized to the video frame; only with video, canvas and 2D context is the data URL delivered, and only then the stream released, after the delivery; otherwise every held track keeps its state |
| Camera.CameraView.HandleClose | components/CameraView.tsx:86-90 | releases whatever is held, then requests closing; after a denied grant it releases nothing |
| Camera.CameraView.Unmount | components/CameraView.tsx:50-52 | teardown runs the cleanup |
| Camera.Session | components/CameraView.tsx:23-90 | over one mount, grant, exit and unmount, every granted track is stopped exactly once, and nothing is stopped without a grant |

## Left out

- JSX markup, CSS classes, SVG icons and `components/Loader.tsx`: presentation only. The page is modelled as the `Screen` value.
- The SDK client, the API key, the model name and the response configuration (`services/geminiService.ts:2-5,51-58`): a foreign call. The call is the parameter `generate`.
- The prompt text and the schema literals: constant data that only the external service enforces. The instruction part is the constructor `Instruction`.
- `JSON.parse`: the parameter `parse`, a partial function.
- `FileReader`, `getUserMedia`, `drawImage` and `toDataURL`: platform I/O and pixel encoding. Their results are parameters (the data URL read, the grant outcome, the encoded frame), and data URLs are opaque strings.
- `console.error` logging.
- Asynchronous interleavings. These include a reset during an in-flight analysis followed by a late answer, a file read that completes after other events, and a grant that resolves after the view was unmounted. The code does not handle any of them.
- Camera.Session: release is not proved when the grant resolves after the view was unmounted. `StartCamera` is atomic, so that path, where the stream is stored after its cleanup has run, is not modelled.
- App.AppController.HandleImageUpload: requires that no analysis is loading, because the file input is part of the chooser, and the chooser is not on screen while loading.
- App.AppController.HandleCapture: requires that no analysis is loading, because the camera is opened from the chooser.
- App.AppController.HandleAnalyze: requires that no analysis is loading (the button is disabled then); the handler itself has no re-entrancy guard.
- App.AppController.CompleteAnalyze: the success value is a whole result record or `null`. The code stores any parsed value as the result. The model has no value for the others: a partial object, a number, a string, a boolean or an array. A `0` would be rendered as the text "0". A partial object, a string or an array would make the report read `.compliant` of `undefined` and fail.
- GeminiService.AnalyzeImageForSafety: does not state that a success holds all five checks, because the source casts the parsed value without checking it.
