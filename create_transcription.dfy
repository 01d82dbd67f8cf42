/** The decisions of `POST /api/video/:videoId/transcription`: validation, the lookup
    and the request sent to the speech-to-text API. The handler itself, which stores
    the answer, is `Server.Api.CreateTranscription`. */
module TranscriptionRoute {
  import opened Common
  import opened JsonBody
  import opened VideoStore

  /** The arguments of `openai.audio.transcriptions.create`; `file` is the stored path
      the read stream is opened on. */
  datatype TranscriptionRequest = TranscriptionRequest(
    file: string, model: string, language: string, responseFormat: string,
    temperature: real, prompt: string)

  /** What the route answers: the transcript text, or the generic 500. */
  datatype TranscriptionReply = TranscriptionError(failure: Failure) | Transcript(text: string)
  {
    function Status(): (code: nat) {
      if TranscriptionError? then 500 else 200
    }
  }

  /** The route before the external call: give up with a 500, or call the API for
      the row `videoId`. */
  datatype TranscriptionPlan = Refuse(failure: Failure) | Transcribe(videoId: string, request: TranscriptionRequest)

  function PlanTranscription(params: Body, body: Body, videos: Videos): (r: TranscriptionPlan)
    ensures r.Transcribe? ==> r.videoId in videos
  {
    match (StringAt(params, "videoId"), StringAt(body, "prompt"))
    case (Some(videoId), Some(prompt)) =>
      if videoId !in videos then Refuse(NotFound)
      else Transcribe(videoId, TranscriptionRequest(videos[videoId].path, "whisper-1", "pt", "json", 0.0, prompt))
    case _ => Refuse(InvalidInput)
  }

  /** A `videoId` or `prompt` that is missing or not a string fails validation; a
      valid but unknown `videoId` fails the lookup; in both cases nothing is sent. */
  lemma TranscriptionRefusals(params: Body, body: Body, videos: Videos)
    ensures PlanTranscription(params, body, videos) == Refuse(InvalidInput) <==>
      StringAt(params, "videoId").None? || StringAt(body, "prompt").None?
    ensures PlanTranscription(params, body, videos) == Refuse(NotFound) <==>
      StringAt(params, "videoId").Some? && StringAt(body, "prompt").Some? &&
      StringAt(params, "videoId").value !in videos
  {
  }

  /** For a known video the request streams that row's stored file to `whisper-1`,
      asking for Portuguese, JSON, temperature 0, with the prompt as given. */
  lemma TranscriptionRequestShape(params: Body, body: Body, videos: Videos, videoId: string, prompt: string)
    requires StringAt(params, "videoId") == Some(videoId) && StringAt(body, "prompt") == Some(prompt)
    requires videoId in videos
    ensures PlanTranscription(params, body, videos) ==
      Transcribe(videoId, TranscriptionRequest(videos[videoId].path, "whisper-1", "pt", "json", 0.0, prompt))
  {
  }
}
