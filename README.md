# Webcam S3 uploader — a Dafny model of its capture and upload logic

The application captures still images from a webcam every 300 ms while the operator
is "capturing", and uploads each one to an S3 bucket under `public/<label>/`. This
project models the two pieces of logic in `src/App.js` that carry decisions:

- **Upload parameters** (`S3Upload`, in `s3upload.dfy`). `uploadImageToS3` turns an
  inline image payload (a data URL `data:image/<subtype>;base64,<data>`, RFC 2397
  section 3), a path prefix and a generated id into an upload request. It reads the
  MIME subtype with `split(';')[0].split('/')[1]`. It maps `jpeg` to the extension `jpg`.
  The key is `<prefix>/<id>.<extension>` and the content type is `image/<subtype>`. The
  body is the payload with a leading `data:image/\w+;base64,` header removed. JavaScript's
  `split` is modelled in `Strings.Split` (`strings.dfy`). A missing subtype is JavaScript's
  `undefined`, which template literals render as the word `undefined`.
- **The `WebcamCapture` component** (`Capture`, in `capture.dfy`). Its state holds
  `label` (called `labelText`, since `label` is a Dafny keyword), `captureInterval`,
  `totalUploads` and `uploadsCompleted`. It also holds the uploads awaiting the store,
  which are the pending `await`s of `capture`. The handlers `handleChange`,
  `toggleCapture` and `capture` are pure transitions on a `State` value. `capture` is
  split into a start half and a settle half. `Step` adds the page's guards:
  - the input is disabled while capturing;
  - the button is disabled while the label is empty;
  - the timer fires only while it is set.

  `Run` folds `Step` over any event trace, and uploads may settle in any order. The
  class `WebcamCapture` holds the same fields and updates them in place. Each of its
  methods is proved to perform its transition.

## Model

| member | source | states |
|---|---|---|
| `Strings.Split` | src/App.js:17 | `split(c)` gives at least one field and no field contains `c` |
| `Strings.JoinSplit` | src/App.js:17 | joining the fields of a split with the separator gives back the original string |
| `Strings.SplitJoin` | src/App.js:17 | separator-free fields survive a join followed by a split |
| `Strings.Decimal` | src/App.js:76 | a counter is shown as a non-empty run of decimal digits with no leading zero; 0 is shown as `0` |
| `Strings.DecimalRoundTrip` | src/App.js:76 | reading the shown digits back gives the counter |
| `S3Upload.MimeType` | src/App.js:17 | the subtype is the text after the first `/` and before the next `/` in the part before the first `;`; it is `undefined` when that part has no `/` |
| `S3Upload.MimeTypeSeparatorFree` | src/App.js:17 | an extracted subtype contains neither `/` nor `;` |
| `S3Upload.MimeTypeOfDataUrl` | src/App.js:17 | for `data:image/<t>;...` with `t` free of `/` and `;`, the subtype is exactly `t` |
| `S3Upload.StripHeader` | src/App.js:16 | the body is the payload unchanged, or the payload minus a leading prefix that matches `data:image\/\w+;base64,` |
| `S3Upload.StripHeaderOfHeader` | src/App.js:16 | every payload that starts with such a header loses exactly that header |
| `S3Upload.StripHeaderKeepsUnmatched` | src/App.js:16 | a payload whose subtype is empty or holds a non-`\w` character is passed through unchanged |
| `S3Upload.StripHeaderKeepsSvgXml` | src/App.js:16 | `data:image/svg+xml;base64,...` keeps its header, because `+` is not a word character |
| `S3Upload.WordRun` | src/App.js:16 | the greedy `\w` run: all word characters, followed by a non-word character or the end |
| `S3Upload.Render` | src/App.js:22-25 | a present value is inserted as its text; a missing one (`undefined`) as the word `undefined` |
| `S3Upload.ExtensionOf` | src/App.js:18 | the extension is `jpg` exactly when the subtype is `jpeg` or `jpg`; any other subtype (or `undefined`) is kept |
| `S3Upload.UploadParamsOf` | src/App.js:20-25 | the key starts with `<prefix>/`, the encoding is `base64`, the content type starts with `image/`, the body is a suffix of the payload (the exact body of every payload is given by `BodyOfAnyPayload`, the exact content type by `ContentTypeOfAnyPayload`, the exact key by `KeyLayout`) |
| `S3Upload.BodyOfAnyPayload` | src/App.js:16-23 | for every payload the body is the payload with a leading `data:image/\w+;base64,` header removed (`StripHeader`), and the payload unchanged otherwise |
| `S3Upload.UploadKeepsUnmatchedBody` | src/App.js:16-23 | a data URL whose subtype is empty or holds a non-word character (such as `svg+xml`) is sent with its whole text as body |
| `S3Upload.ContentTypeOfAnyPayload` | src/App.js:17-25 | for every payload the content type is `image/` followed by the subtype, or by the word `undefined` when there is none |
| `S3Upload.ContentTypeUndefined` | src/App.js:17-25 | a payload with no `/` before its first `;` (such as `data:,`) is sent with content type `image/undefined` |
| `S3Upload.ContentTypeOfDataUrl` | src/App.js:17-25 | for every payload `data:image/<t>;<rest>` with `t` free of `/` and `;` (not only `\w+` subtypes, e.g. `svg+xml`): content type `image/<t>` and key `<prefix>/<id>.<t, with jpeg as jpg>` |
| `S3Upload.UploadOfDataUrl` | src/App.js:16-25 | for `data:image/<t>;base64,<d>` with `t` in `\w+`: key `<prefix>/<id>.<t, with jpeg as jpg>`, body `d`, content type `image/<t>` (raw subtype) |
| `S3Upload.ScreenshotUpload` | src/App.js:16-25 | a JPEG screenshot under `public/<label>` gets key `public/<label>/<id>.jpg`, content type `image/jpeg` and the base64 data as body |
| `S3Upload.ParseKeyOfKey` | src/App.js:22 | a key `<prefix>/<id>.<ext>` parses back into its prefix, id and extension when the id has no `/` or `.` and the extension has no `/` |
| `S3Upload.KeyLayout` | src/App.js:22 | the key of every upload determines its prefix, its id and its extension |
| `S3Upload.DistinctIdsDistinctKeys` | src/App.js:22 | under one prefix, uploads with different uuid-shaped ids get different keys |
| `Capture.Step` | src/App.js:46-95 | a guarded event never lowers a counter and keeps the counter invariant; while capturing continues the label is unchanged; capturing starts only by a button click with a non-empty label |
| `Capture.Run` | src/App.js:48-54 | over any event trace neither counter decreases and the counter invariant is kept |
| `Capture.StepKeepsInv` | src/App.js:46-63 | each guarded event keeps the invariant. Completed uploads plus in-flight uploads never exceed started ones. The label is non-empty while capturing. Every in-flight key lies under `public/<its non-empty label>/` |
| `Capture.RunKeepsInv` | src/App.js:46-63 | every event trace keeps that invariant |
| `Capture.CompletedNeverExceedsStarted` | src/App.js:48-54 | in every reachable state `uploadsCompleted <= totalUploads` |
| `Capture.StopClearsLabel` | src/App.js:57-59 | pressing the button while capturing always stops the timer and empties the label |
| `Capture.StartNeedsLabel` | src/App.js:94-95 | capturing starts only through the button, only with a non-empty label, and keeps that label |
| `Capture.LabelFixedWhileCapturing` | src/App.js:94 | while capturing, an event either leaves the label alone or stops capturing and empties it |
| `Capture.LabelFixedOverCaptureRun` | src/App.js:94 | across a trace during which capturing never stops, the label does not change |
| `Capture.TickUploadsUnderLabel` | src/App.js:46-51 | a timer tick while capturing queues exactly the upload `public/<label>/<id>.jpg` of the screenshot |
| `Capture.StatusText` | src/App.js:72-78 | the status reads "Waiting for capture..." exactly when `totalUploads` is 0 |
| `Capture.StatusShowsCounters` | src/App.js:74-78 | once an upload has started the line is `Uploaded <a> of <b>`, where `a` is the completed count and `b` the started count, each in decimal digits with no leading zero |
| `Capture.StatusTextFaithful` | src/App.js:72-78 | two equal status lines show equal counters: the same total and, once uploads exist, the same completed count |
| `Capture.WebcamCapture.constructor` | src/App.js:33-41 | empty label, no timer, both counters 0, nothing in flight |
| `Capture.WebcamCapture.HandleChange` | src/App.js:63 | the input named `label` sets the label to the typed value and nothing else changes |
| `Capture.WebcamCapture.ToggleCapture` | src/App.js:57-61 | a running timer is cleared together with the label, otherwise a timer is set and the label is kept; the counter invariant is kept |
| `Capture.WebcamCapture.CaptureStart` | src/App.js:46-51 | `totalUploads` grows by one and the request built under `public/<label>` is added to the in-flight uploads |
| `Capture.WebcamCapture.CaptureFinish` | src/App.js:52-54 | the settled upload leaves the in-flight list and `uploadsCompleted` grows by one only if it succeeded |
| `Capture.WebcamCapture.UploadStatus` | src/App.js:72-78 | the status text of the current counters, the waiting message exactly when nothing was started |

## Left out

- S3 client construction, the bucket name and `s3.upload(...).promise()` (src/App.js:11-14, 21, 28) are network I/O through a library outside the model. An upload's outcome is the `succeeded` parameter of the settle event.
- Credential acquisition (`Auth.currentCredentials`, `Auth.essentialCredentials`) and `Amplify.configure` are configuration plumbing.
- Base64 decoding by `new Buffer(..., 'base64')` is a foreign library call. The body is the header-stripped text.
- `uuid()` is randomness, so the id is a parameter. Its uniqueness is not proved. `DistinctIdsDistinctKeys` only shows that distinct ids give distinct keys.
- `webcam.getScreenshot()` is a device call, so the screenshot is a parameter of the tick event. Timer handles from `setInterval` are a parameter of the button event. They are positive numbers, so a running timer is truthy. The period, `this.props.captureInterval`, plays no part in the state transitions.
- `webcam.getScreenshot()` may return `null` before the camera is ready. `imgSrc.replace` (src/App.js:16) then throws after `totalUploads` was already incremented (src/App.js:48-50). Payloads are strings in the model, so this case shows only as an upload that settles with `succeeded` false.
- The `Webcam` widget, the JSX layout and the `App` wrapper are UI rendering. Only the `disabled` guards of the input and the button are kept, in `Step`.
- Overlapping uploads are modelled as separate start and settle events in one sequential trace. True concurrency is not modelled.
- React's asynchronous `setState` batching is not modelled. That batching can read a stale `this.state` when `capture` adds to a counter. The model applies each update at once.
- `Capture.WebcamCapture.HandleChange`: takes only the name `label`, the one input that calls it. The source writes any named key into the state.
