# upload.ai — a Dafny model of its request handlers and upload form

upload.ai lets a user pick a video in the browser, converts it to MP3 there, uploads
the audio, has it transcribed by a speech-to-text API, and then fills a prompt
template with the transcription and sends it to a text-completion API. This project
models the decision and string logic of the three routes that do this work and of
the browser form that drives them, and proves what each one promises:

- `POST /api/video` (`Server.Api.UploadVideo`, with its checks in `UploadRoute`):
  the missing-file and extension checks, the storage name `<base>-<uuid>.mp3`, and
  the order "write the file, then create the row".
- `POST /api/video/:videoId/transcription` (`Server.Api.CreateTranscription`, with
  its validation and request in `TranscriptionRoute`): validation, lookup, the
  speech-to-text request, and an update of the `transcription` field alone.
- `POST /api/generate` (`GenerateRoute`, pure): body validation with the temperature
  bound and its 0.5 default, the empty-transcription check, the template fill, and
  the completion request.
- The browser form (`UploadForm`): the `Status` values, the file picker handler, the
  submit handler's sequence of status changes and calls, and the rule that disables
  the textarea and the button.

The routes also rely on library behaviour, which is modelled here as well: Node's
POSIX `path.extname` and `path.basename(p, suffix)` (`NodePath`), and JavaScript's
`String.prototype.replace` with a string pattern (`JsString`). The latter replaces
only the first occurrence. It also expands `$$`, `` $` ``, `$&` and `$'` in the
replacement, as GetSubstitution in section 22.1.3.19.1 of ECMA-262 specifies.
The database is a map from id to `Video` row, and the tmp directory is a map from
path to bytes. Each external collaborator is a parameter that says what it answered
(`ExtResult`: `Ok(value)` or `Err`): the two AI APIs, the transcoder, and the HTTP
calls made from the browser. The disk write is a parameter of its own
(`Server.WriteResult`: `Written`, or `WriteFailed` with whatever partial file it left).
The UUID and the id the database gives a new row are parameters too; the database
refuses the insert when that id is already a key of the map.

The model follows the code, also where it departs from what the application evidently intends:

- An unknown `videoId` ends in the generic 500 (the lookup throws), not in a 404.
- The transcription is not put into the template verbatim: `replace` expands `$`
  patterns in it, so a transcription `$&` leaves the marker in place
  (`GenerateRoute.DollarAmpersandKeepsMarker`). The verbatim property is proved for
  transcriptions without `$`.
- Only the first marker is replaced. Nothing checks that the template holds exactly
  one marker.
- A failed disk write or a refused database insert during upload ends in a 500 from
  the framework's default error handler, because this route has no catch.
- The row's `name` is the multipart field name (always `"file"` from this client),
  not the uploaded file's name.

Files: `common.dfy`, `node_path.dfy`, `js_string.dfy`, `json_body.dfy`,
`video_store.dfy`, `upload_video.dfy`, `create_transcription.dfy`,
`ai_text_generate.dfy`, `server.dfy`, `video_upload_form.dfy`, `pipeline.dfy` (how
the form's requests meet the routes, and an upload → transcribe → generate scenario).

## Model

| member | source | states |
|---|---|---|
| NodePath.ExtName | api/src/routes/upload-video.ts:29 | `path.extname`: empty, or a proper suffix of the final component that starts with its only '.' |
| NodePath.ExtNameEmpty | api/src/routes/upload-video.ts:29 | `extname` is empty exactly when the final component is ".." or has no '.' after its first character, so "a." gives "." and ".profile" gives "" |
| NodePath.ExtNameIs | api/src/routes/upload-video.ts:29-31 | for an extension like ".mp3", `extname` yields it exactly when the final component ends with it and is longer than it |
| NodePath.BaseNameCases | api/src/routes/upload-video.ts:37 | `path.basename(p, suffix)`: the final component when the suffix is empty or matches neither way; the component minus the suffix when the component ends with it and is longer |
| NodePath.BaseNamePlusExtName | api/src/routes/upload-video.ts:37 | `basename(p, extname(p)) + extname(p)` rebuilds the final path component |
| NodePath.FinalComponentOfJoin | api/src/routes/upload-video.ts:41 | the file stored at `<tmp>/<name>` has `<name>` as its final component |
| UploadRoute.PlanUpload | api/src/routes/upload-video.ts:21-39 | no file gives "No file uploaded"; an extension other than ".mp3" gives "Invalid file type"; an accepted upload keeps the part's bytes and field name |
| UploadRoute.UploadAcceptedIff | api/src/routes/upload-video.ts:29-35 | an upload is accepted iff there is a file whose final name component ends in ".mp3" and has characters before it |
| UploadRoute.StoredFileName | api/src/routes/upload-video.ts:37-41 | the stored path is `<tmp>/<base>-<uuid>.mp3`, where `<base>.mp3` is the uploaded file's final name component; its extension is ".mp3" |
| VideoStore.Insert | api/src/routes/upload-video.ts:45-51 | creating a row adds exactly that row under its id and keeps every other row |
| VideoStore.SetTranscription | api/src/routes/create-transcription.ts:41-48 | the update changes only the `transcription` of that one row; all other fields and rows are kept |
| VideoStore.SetTranscriptionOverwrites | api/src/routes/create-transcription.ts:41-48 | a second transcription replaces the first; nothing of the first is kept |
| Server.Api.UploadVideo | api/src/routes/upload-video.ts:20-57 | 400s change nothing; a failed write creates no row; a written file then one new row `{id, name: field name, path, transcription: ""}` and reply 200 "File uploaded" with it; other rows unchanged |
| TranscriptionRoute.PlanTranscription | api/src/routes/create-transcription.ts:10-39 | the call is made only for a row that exists |
| TranscriptionRoute.TranscriptionRefusals | api/src/routes/create-transcription.ts:10-26 | a missing or non-string `videoId` or `prompt` fails validation; a valid but unknown id fails the lookup; either way nothing is sent |
| TranscriptionRoute.TranscriptionRequestShape | api/src/routes/create-transcription.ts:28-39 | the request streams the row's stored path to `whisper-1` with language "pt", format "json", temperature 0 and the prompt as given |
| Server.Api.CreateTranscription | api/src/routes/create-transcription.ts:8-57 | a refusal or an API failure gives 500 and changes nothing; success stores the text on the row with the requested id only, and returns the text now stored |
| JsonBody.StringAt | api/src/routes/create-transcription.ts:10-20 | `z.string()` on a field of `z.object`: accepts exactly a string-valued field of an object body |
| JsonBody.BoundedNumberAt | api/src/routes/ai-text-generate.ts:12 | `z.number().min(0).max(1).default(0.5)`: the default when the field is absent, the number when it is in range, a failure otherwise |
| GenerateRoute.ParseBody | api/src/routes/ai-text-generate.ts:9-15 | the body is accepted iff both strings and the temperature are valid; the accepted `videoId` and `template` are the body's own strings, and the temperature is the body's number (in [0, 1]) or 0.5 when absent |
| GenerateRoute.InvalidBodyRejected | api/src/routes/ai-text-generate.ts:9-15 | a body failing the schema, including a missing or non-string `videoId` or `template`, gives the invalid-input 500 before any lookup, and only such a body does |
| GenerateRoute.BuildPrompt | api/src/routes/ai-text-generate.ts:29-32 | a template without the marker is unchanged; otherwise its first marker is replaced by the transcription as GetSubstitution expands it |
| GenerateRoute.PlanGeneration | api/src/routes/ai-text-generate.ts:15-43 | a 500 is only an invalid input or an unknown video; a 400 is "No transcription available for this video"; a call uses `gpt-3.5-turbo-16k`, a temperature in [0, 1] and one "user" message |
| GenerateRoute.Generate | api/src/routes/ai-text-generate.ts:7-51 | the reply is the API's response exactly when the API is called and answers; a 400 comes exactly from the empty-transcription check and carries its message; an invalid body or unknown id, and a rejected API call, are answered with the 500 |
| GenerateRoute.CallIff | api/src/routes/ai-text-generate.ts:15-43 | the completion API is called iff the body is valid, the video exists and its transcription is non-empty; the request has model `gpt-3.5-turbo-16k`, the validated temperature and one "user" message holding the filled template |
| GenerateRoute.BadTemperatureRejected | api/src/routes/ai-text-generate.ts:12-15 | a non-number temperature, or one outside [0, 1], gives 500 before any lookup |
| GenerateRoute.TemperatureDefault | api/src/routes/ai-text-generate.ts:12 | an omitted temperature is sent as 0.5 |
| GenerateRoute.NoCallOnRefusal | api/src/routes/ai-text-generate.ts:17-27 | an unknown video gives 500 and an empty transcription gives 400 "No transcription available for this video"; the reply does not depend on the completion API |
| GenerateRoute.ResponsePassedThrough | api/src/routes/ai-text-generate.ts:34-50 | the API's response is returned unmodified; its rejection gives 500 |
| GenerateRoute.PromptSubstitution | api/src/routes/ai-text-generate.ts:29-32 | for a transcription without '$': a template without the marker is unchanged; otherwise only the first marker is replaced and later ones stay |
| GenerateRoute.DollarAmpersandKeepsMarker | api/src/routes/ai-text-generate.ts:29-32 | a transcription "$&" is expanded by `replace` into the marker itself, so the template is sent unfilled |
| JsString.IndexOf | api/src/routes/ai-text-generate.ts:29-32 | `indexOf` finds the first occurrence, finds none exactly when there is none, and any first occurrence is the index it returns |
| JsString.Expand | api/src/routes/ai-text-generate.ts:29-32 | GetSubstitution: a replacement without '$' is inserted as it is |
| JsString.Replace | api/src/routes/ai-text-generate.ts:29-32 | `replace` leaves a string without the pattern alone, and otherwise replaces only its first occurrence by the expanded replacement |
| JsString.ExpandOtherPatterns | api/src/routes/ai-text-generate.ts:29-32 | GetSubstitution: "$$" gives "$", "$`" the text before the match, "$'" the text after it |
| JsString.ReplaceLiteral | api/src/routes/ai-text-generate.ts:29-32 | a '$'-free `replace` swaps exactly the first occurrence and keeps the rest, or leaves a string without the pattern alone |
| UploadForm.Form.constructor | web/src/components/video-upload-form.tsx:35-36 | the form starts with no file and status `waiting` |
| UploadForm.Form.HandleFileSelected | web/src/components/video-upload-form.tsx:39-49 | no file list keeps the selection; otherwise the first file is selected, and an empty list selects nothing |
| UploadForm.Submission | web/src/components/video-upload-form.tsx:83-117 | no selected file means no events at all; otherwise the handler first sets `converting` and then converts the selected file, and does at most eight things |
| UploadForm.Disabled | web/src/components/video-upload-form.tsx:158-167 | the textarea and the button are disabled exactly when the status is not `waiting` |
| UploadForm.Form.HandleUploadVideo | web/src/components/video-upload-form.tsx:83-117 | the handler performs exactly the events of `Submission`, and the status ends where that sequence leaves it |
| UploadForm.SubmissionStatuses | web/src/components/video-upload-form.tsx:87-114 | the statuses a submission sets are exactly the first k steps of converting, uploading, generating, success, k being how far the calls succeeded |
| UploadForm.SubmissionStopsAtRejection | web/src/components/video-upload-form.tsx:83-117 | a rejected call ends the handler: a submission performs exactly one status change and one call per step reached, with no retry and nothing after the failed step |
| UploadForm.StatusesFollowPipeline | web/src/components/video-upload-form.tsx:87-114 | the statuses set are an initial part of converting, uploading, generating, success; success is reached iff every step succeeds; with no file nothing happens |
| UploadForm.SubmissionFinalStatus | web/src/components/video-upload-form.tsx:91-114 | a rejected call leaves the status stuck at the last one set; no file leaves it untouched |
| UploadForm.VideoUploadedOnceAfterSuccess | web/src/components/video-upload-form.tsx:104-116 | `onVideoUploaded` is called once, last, right after status success, with the uploaded id; otherwise it is not called |
| UploadForm.ControlsLockedDuringSubmission | web/src/components/video-upload-form.tsx:158-167 | both the textarea and the button are enabled in `waiting` and disabled in every status a submission sets |
| UploadForm.ConvertedFileIsMp3 | web/src/components/video-upload-form.tsx:51-81 | the converted file keeps the transcoder's bytes under a bare name whose `extname` is ".mp3" |
| UploadForm.TranscriptionCallShape | web/src/components/video-upload-form.tsx:102-112 | after the upload answers, the status becomes generating and the transcription call names the returned row id and passes the textarea's prompt unchanged |
| UploadForm.UploadPayloadShape | web/src/components/video-upload-form.tsx:95-102 | the posted payload carries "audio.mp3" and a prompt that is "" when the textarea has no value |
| Pipeline.ConvertedAudioAccepted | api/src/routes/upload-video.ts:29-51 | the form's "audio.mp3" always passes the extension check; it is stored as `<tmp>/audio-<uuid>.mp3` in a row named "file" |
| Pipeline.TranscriptionBodyCarriesPrompt | web/src/components/video-upload-form.tsx:110-112 | the transcription route receives the form's prompt as a string exactly when the form had one |
| Pipeline.FormPromptReachesTranscription | web/src/components/video-upload-form.tsx:102-112 | the form's transcription call targets the new row, and the route reads the textarea's prompt exactly when there was one |
| Pipeline.GenerateScenario | api/src/routes/ai-text-generate.ts:9-43 | `<prefix>{transcription}` with no temperature, for a video transcribed as `text` (no '$'), sends `<prefix><text>` at temperature 0.5 |
| Pipeline.TranscribeClip | api/src/routes/create-transcription.ts:28-48 | transcribing the uploaded "clip.mp3" as "hello world" with prompt "test" sends the row's stored path to whisper-1 ("pt", "json", 0, "test") and stores "hello world" on that row |
| Pipeline.Scenario | api/src/routes/create-transcription.ts:28-48 | uploading "clip.mp3", transcribing it as "hello world" and generating from "Summarize: {transcription}" stores "hello world" on the new row and asks for "Summarize: hello world" at temperature 0.5 |

## Left out

- The 25 MB upload limit: it is enforced inside the multipart plugin, whose behaviour is not part of this model.
- The transcoding itself (`convertVideoToAudio`, lines 51-81 of the form): only its output name "audio.mp3" is kept; its bytes are a parameter.
- The OpenAI clients, the Prisma queries and the stream `pump` are foreign calls: each call's answer is a parameter, and the queries are operations on the map.
- `randomUUID`, the database's id generation, and the `__dirname`-based tmp directory: the first two are parameters, and the directory is an opaque constant of `Server.Api`.
- `createdAt`/`updatedAt` (database clocks) and the contents of the raw error object in a 500 reply: a reply carries only the kind of failure.
- A read stream on a missing file fails inside the speech-to-text call. It is covered by that call's `Err` answer, not modelled separately.
- An update that fails at the database after a successful transcription: updates are taken to succeed.
- A `null` transcription (the column is nullable): the model's transcriptions are strings, and `""` is what the 400 check sees.
- `GET /api/video` and `GET /api/prompts` (api/src/routes/get-all-videos.ts, get-all-prompts.ts): each only returns `findMany()`.
- api/src/server.ts (plugin wiring, CORS, `listen`) and web/src/App.tsx (layout, streaming hook, slider): I/O and UI plumbing.
- The `console.log` of the error in the catch blocks (create-transcription.ts:52, ai-text-generate.ts:47) and the transcoder's progress log (video-upload-form.tsx:56-58): console output has no effect on state or replies.
- Rendering (`previewURL`, status labels and icons) and async interleaving: each handler runs as one sequential step.
- Windows paths: `NodePath` follows Node's POSIX implementation.
- Strings are sequences of Dafny characters, not UTF-16 code units, and temperatures are reals used only in comparisons.
