/** `POST /api/generate`: validate the body, read the video, fill the template with
    its transcription and ask the completion API. Nothing here changes the store. */
module GenerateRoute {
  import opened Common
  import opened JsonBody
  import opened VideoStore
  import JsString

  /** The substitution marker the template carries. */
  const Marker := "{transcription}"
  const ChatModel := "gpt-3.5-turbo-16k"
  const DefaultTemperature: real := 0.5
  const NoTranscription := "No transcription available for this video"

  /** The body once `bodySchema.parse` has accepted it. */
  datatype GenerateBody = GenerateBody(videoId: string, template: string, temperature: real)

  datatype Message = Message(role: string, content: string)

  /** The arguments of `openai.chat.completions.create`. */
  datatype CompletionRequest = CompletionRequest(model: string, temperature: real, messages: seq<Message>)

  /** The route before the external call. */
  datatype GeneratePlan = Err500(failure: Failure) | Err400(error: string) | Call(request: CompletionRequest)

  /** What the route answers; `R` is the completion API's response object. */
  datatype GenerateReply<R> = ServerError(failure: Failure) | BadRequest(error: string) | Completion(response: R)

  /** `bodySchema.parse(req.body)`: an object whose `videoId` and `template` are strings
      and whose `temperature` is a number in [0, 1] or absent (then 0.5). */
  function ParseBody(body: Body): (r: Option<GenerateBody>)
    ensures r.Some? ==> 0.0 <= r.value.temperature <= 1.0
    ensures r.Some? <==>
      && StringAt(body, "videoId").Some?
      && StringAt(body, "template").Some?
      && BoundedNumberAt(body, "temperature", 0.0, 1.0, DefaultTemperature).Some?
    ensures r.Some? ==>
      var fields := body.value.fields;
      && fields["videoId"] == JString(r.value.videoId)
      && fields["template"] == JString(r.value.template)
      && r.value.temperature == (if "temperature" in fields then fields["temperature"].n else DefaultTemperature)
  {
    if !IsObject(body) then None
    else
      match (StringAt(body, "videoId"), StringAt(body, "template"), BoundedNumberAt(body, "temperature", 0.0, 1.0, DefaultTemperature))
      case (Some(videoId), Some(template), Some(temperature)) => Some(GenerateBody(videoId, template, temperature))
      case _ => None
  }

  /** `template.replace("{transcription}", transcription)`. */
  function BuildPrompt(template: string, transcription: string): (prompt: string)
    ensures (forall j: nat :: !JsString.OccursAt(template, Marker, j)) ==> prompt == template
    ensures forall i: nat :: JsString.FirstOccurrence(template, Marker, i) ==>
              var before, after := template[..i], template[i + |Marker|..];
              prompt == before + JsString.Expand(transcription, before, Marker, after) + after
  {
    JsString.Replace(template, Marker, transcription)
  }

  /** The handler up to the completion call: an invalid body or an unknown video is
      a 500, an empty transcription the 400, and anything else one request with the
      fixed model and a single user message. */
  function PlanGeneration(body: Body, videos: Videos): (plan: GeneratePlan)
    ensures plan.Err500? ==> plan.failure == InvalidInput || plan.failure == NotFound
    ensures plan.Err400? ==> plan.error == NoTranscription
    ensures plan.Call? ==>
      && plan.request.model == ChatModel
      && 0.0 <= plan.request.temperature <= 1.0
      && |plan.request.messages| == 1
      && plan.request.messages[0].role == "user"
  {
    match ParseBody(body)
    case None => Err500(InvalidInput)
    case Some(GenerateBody(videoId, template, temperature)) =>
      if videoId !in videos then Err500(NotFound)
      else if videos[videoId].transcription == "" then Err400(NoTranscription)
      else
        var prompt := BuildPrompt(template, videos[videoId].transcription);
        Call(CompletionRequest(ChatModel, temperature, [Message("user", prompt)]))
  }

  /** The whole handler, given what the completion API would answer if called. */
  function Generate<R>(body: Body, videos: Videos, answer: ExtResult<R>): (reply: GenerateReply<R>)
    ensures reply.Completion? <==> PlanGeneration(body, videos).Call? && answer.Ok?
    ensures reply.Completion? ==> reply.response == answer.value
    ensures reply.BadRequest? ==> reply.error == NoTranscription
    ensures reply.BadRequest? <==> PlanGeneration(body, videos).Err400?
    ensures PlanGeneration(body, videos).Err500? ==> reply == ServerError(PlanGeneration(body, videos).failure)
    ensures PlanGeneration(body, videos).Call? && answer.Err? ==> reply == ServerError(ExternalError)
  {
    match PlanGeneration(body, videos)
    case Err500(f) => ServerError(f)
    case Err400(e) => BadRequest(e)
    case Call(_) =>
      match answer
      case Ok(response) => Completion(response)
      case Err => ServerError(ExternalError)
  }

  /** The route calls the completion API exactly when the body is valid, the video
      exists and its transcription is non-empty; the request then has the fixed model,
      the validated temperature and one user message holding the filled template. */
  lemma CallIff(body: Body, videos: Videos)
    ensures PlanGeneration(body, videos).Call? <==>
      ParseBody(body).Some? && ParseBody(body).value.videoId in videos &&
      videos[ParseBody(body).value.videoId].transcription != ""
    ensures PlanGeneration(body, videos).Call? ==>
      var b := ParseBody(body).value;
      var req := PlanGeneration(body, videos).request;
      && req.model == ChatModel
      && req.temperature == b.temperature
      && 0.0 <= req.temperature <= 1.0
      && |req.messages| == 1
      && req.messages[0].role == "user"
      && req.messages[0].content == BuildPrompt(b.template, videos[b.videoId].transcription)
  {
  }

  /** A body that fails the schema (not an object, or a `videoId` or `template` that
      is missing or not a string, or a bad temperature) is the 500 of an invalid
      input, given before the lookup; no other request gives that reply. */
  lemma InvalidBodyRejected(body: Body, videos: Videos)
    ensures PlanGeneration(body, videos) == Err500(InvalidInput) <==> ParseBody(body).None?
    ensures StringAt(body, "videoId").None? || StringAt(body, "template").None? ==>
              PlanGeneration(body, videos) == Err500(InvalidInput)
  {
  }

  /** A temperature outside [0, 1], or one that is not a number, is refused before the
      lookup, whatever the store holds. */
  lemma BadTemperatureRejected(body: Body, videos: Videos)
    requires IsObject(body) && "temperature" in body.value.fields
    requires var t := body.value.fields["temperature"]; !t.JNumber? || t.n < 0.0 || t.n > 1.0
    ensures PlanGeneration(body, videos) == Err500(InvalidInput)
  {
  }

  /** An omitted temperature becomes 0.5. */
  lemma TemperatureDefault(body: Body, videos: Videos)
    requires IsObject(body) && "temperature" !in body.value.fields
    requires PlanGeneration(body, videos).Call?
    ensures PlanGeneration(body, videos).request.temperature == DefaultTemperature
  {
  }

  /** An unknown video gives 500 and an empty transcription gives 400, and in either
      case (as with an invalid body) the reply does not depend on the completion API:
      it is never called. */
  lemma NoCallOnRefusal<R>(body: Body, videos: Videos, a1: ExtResult<R>, a2: ExtResult<R>)
    requires ParseBody(body).Some?
    requires var id := ParseBody(body).value.videoId; id !in videos || videos[id].transcription == ""
    ensures var id := ParseBody(body).value.videoId;
      Generate(body, videos, a1) ==
        (if id !in videos then ServerError(NotFound) else BadRequest(NoTranscription))
    ensures Generate(body, videos, a1) == Generate(body, videos, a2)
  {
  }

  /** When the API is called, its response is returned as it is, and a rejection
      becomes the generic 500. */
  lemma ResponsePassedThrough<R>(body: Body, videos: Videos, answer: ExtResult<R>)
    requires PlanGeneration(body, videos).Call?
    ensures Generate(body, videos, answer) ==
      (if answer.Ok? then Completion(answer.value) else ServerError(ExternalError))
  {
  }

  /** For a transcription without '$', only the first marker is replaced, by the
      transcription as it is; later markers stay, and a template without the marker
      is sent unchanged. */
  lemma PromptSubstitution(template: string, transcription: string)
    requires '$' !in transcription
    ensures (forall j: nat :: !JsString.OccursAt(template, Marker, j)) ==>
              BuildPrompt(template, transcription) == template
    ensures forall i: nat :: JsString.FirstOccurrence(template, Marker, i) ==>
              BuildPrompt(template, transcription) == template[..i] + transcription + template[i + |Marker|..]
  {
    JsString.ReplaceLiteral(template, Marker, transcription);
  }

  /** `replace` expands '$' patterns of the transcription: a transcription "$&" puts the
      marker itself back, so the template reaches the API unfilled. */
  lemma DollarAmpersandKeepsMarker(template: string, i: nat)
    requires JsString.FirstOccurrence(template, Marker, i)
    ensures BuildPrompt(template, "$&") == template
  {
    JsString.ExpandMatched(template[..i], Marker, template[i + |Marker|..]);
    assert template[..i] + Marker + template[i + |Marker|..] == template by {
      assert template[i..i + |Marker|] == Marker;
      assert template == template[..i] + template[i..i + |Marker|] + template[i + |Marker|..];
    }
  }
}
