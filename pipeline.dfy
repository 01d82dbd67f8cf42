/** How the browser form and the API routes fit together. */
module Pipeline {
  import opened Common
  import opened JsonBody
  import opened VideoStore
  import NodePath
  import JsString
  import UploadForm
  import UploadRoute
  import TranscriptionRoute
  import GenerateRoute
  import Server

  /** The file part the API receives for the form's payload. */
  function ReceivedPart(payload: UploadForm.UploadPayload): (part: UploadRoute.FilePart) {
    UploadRoute.FilePart(UploadForm.FileField, payload.file.name, payload.file.content)
  }

  /** The JSON body of the transcription call: `JSON.stringify({prompt})` drops an
      undefined prompt. */
  function TranscriptionBody(prompt: Option<string>): (body: Body) {
    Some(JObject(if prompt.Some? then map["prompt" := JString(prompt.value)] else map[]))
  }

  /** Whatever the transcoder produced, the converted "audio.mp3" passes the API's
      extension check; it is stored as `audio-<uuid>.mp3` in the tmp directory, and
      the row's name is the multipart field name "file". */
  lemma ConvertedAudioAccepted(audio: seq<byte>, prompt: string, uuid: string, tmpDir: string)
    requires UploadRoute.IsUuid(uuid)
    ensures var part := ReceivedPart(UploadForm.UploadPayload(UploadForm.ConvertedFile(audio), prompt));
      UploadRoute.PlanUpload(Some(part), uuid, tmpDir) ==
        UploadRoute.Store(tmpDir + "/audio-" + uuid + ".mp3", audio, "file")
  {
    var name := UploadForm.ConvertedFile(audio).name;
    UploadForm.ConvertedFileIsMp3(audio);
    NodePath.BaseNamePlusExtName(name);
    var base := NodePath.BaseName(name, ".mp3");
    assert base == name[..5] by {
      assert |base| == 5;
      forall i | 0 <= i < 5 ensures base[i] == name[i] { assert (base + ".mp3")[i] == base[i]; }
    }
    assert tmpDir + "/" + (name[..5] + "-" + uuid + ".mp3") == tmpDir + "/audio-" + uuid + ".mp3";
  }

  /** The transcription route sees the form's prompt exactly when the form had one. */
  lemma TranscriptionBodyCarriesPrompt(prompt: Option<string>)
    ensures StringAt(TranscriptionBody(prompt), "prompt") == prompt
  {
  }

  /** The transcription call the form makes after a successful upload names the new
      row, and its JSON body hands the route the textarea's prompt exactly when the
      textarea had one. */
  lemma FormPromptReachesTranscription(video: UploadForm.File, prompt: Option<string>, audio: seq<byte>,
                                       videoId: string, transcription: ExtResult<string>)
    ensures var events := UploadForm.Submission(Some(video), prompt, Ok(audio), Ok(videoId), transcription);
      && |events| >= 6
      && events[5].PostTranscription?
      && events[5].videoId == videoId
      && StringAt(TranscriptionBody(events[5].prompt), "prompt") == prompt
  {
    UploadForm.TranscriptionCallShape(video, prompt, audio, videoId, transcription);
    TranscriptionBodyCarriesPrompt(prompt);
  }

  /** "clip.mp3" is accepted and stored under a ".mp3" path. */
  lemma ClipAccepted(clip: seq<byte>, uuid: string, tmpDir: string)
    requires UploadRoute.IsUuid(uuid)
    ensures var plan := UploadRoute.PlanUpload(Some(UploadRoute.FilePart("file", "clip.mp3", clip)), uuid, tmpDir);
      plan.Store? && NodePath.ExtName(plan.path) == ".mp3"
  {
    NodePath.FinalComponentOfName("clip.mp3");
    NodePath.ExtNameIs("clip.mp3", ".mp3");
    UploadRoute.StoredFileName(Some(UploadRoute.FilePart("file", "clip.mp3", clip)), uuid, tmpDir);
  }

  /** Generating from a template `<prefix>{transcription}` with no temperature, against
      a video transcribed as `text`, sends `<prefix><text>` at temperature 0.5. */
  lemma GenerateScenario(videos: Videos, videoId: string, prefix: string, text: string)
    requires videoId in videos && videos[videoId].transcription == text
    requires text != "" && '$' !in text && '{' !in prefix
    ensures var body := Some(JObject(map["videoId" := JString(videoId), "template" := JString(prefix + GenerateRoute.Marker)]));
      GenerateRoute.PlanGeneration(body, videos) ==
        GenerateRoute.Call(GenerateRoute.CompletionRequest(
          GenerateRoute.ChatModel, GenerateRoute.DefaultTemperature, [GenerateRoute.Message("user", prefix + text)]))
  {
    var template := prefix + GenerateRoute.Marker;
    MarkerAtEnd(prefix, text);
    var body := Some(JObject(map["videoId" := JString(videoId), "template" := JString(template)]));
    assert StringAt(body, "videoId") == Some(videoId);
    assert StringAt(body, "template") == Some(template);
    assert "temperature" !in body.value.fields;
    assert GenerateRoute.ParseBody(body) == Some(GenerateRoute.GenerateBody(videoId, template, 0.5));
  }

  /** A template that ends with its only marker is filled by appending the
      transcription. */
  lemma MarkerAtEnd(prefix: string, transcription: string)
    requires '{' !in prefix && '$' !in transcription
    ensures GenerateRoute.BuildPrompt(prefix + GenerateRoute.Marker, transcription) == prefix + transcription
  {
    var t := prefix + GenerateRoute.Marker;
    var k := |prefix|;
    forall j: nat | j < k ensures !JsString.OccursAt(t, GenerateRoute.Marker, j) {
      assert t[j] == prefix[j];
      if j + |GenerateRoute.Marker| <= |t| {
        assert t[j..j + |GenerateRoute.Marker|][0] == t[j];
      }
    }
    assert t[k..k + |GenerateRoute.Marker|] == GenerateRoute.Marker;
    assert JsString.FirstOccurrence(t, GenerateRoute.Marker, k);
    GenerateRoute.PromptSubstitution(t, transcription);
    assert t[..k] == prefix;
    assert t[k + |GenerateRoute.Marker|..] == "";
  }

  /** Upload "clip.mp3" to an empty API: the new row has an empty transcription and a
      ".mp3" path. */
  method UploadClip(clip: seq<byte>, uuid: string, tmpDir: string, newId: string)
    returns (api: Server.Api, video: Video)
    requires UploadRoute.IsUuid(uuid)
    ensures fresh(api) && api.Valid() && api.tmpDir == tmpDir
    ensures api.videos == map[newId := video]
    ensures video == Video(newId, "file", video.path, "") && NodePath.ExtName(video.path) == ".mp3"
  {
    api := new Server.Api(tmpDir, map[], map[]);
    var part := UploadRoute.FilePart("file", "clip.mp3", clip);
    ClipAccepted(clip, uuid, tmpDir);
    var uploaded := api.UploadVideo(Some(part), uuid, Server.Written, newId);
    video := uploaded.content;
  }

  /** Then transcribe it as "hello world" with the prompt "test": the request streams
      the stored file, and the row's transcription becomes the returned text. */
  method TranscribeClip(clip: seq<byte>, uuid: string, tmpDir: string, newId: string)
    returns (api: Server.Api, row: Video, sent: Option<TranscriptionRoute.TranscriptionRequest>)
    requires UploadRoute.IsUuid(uuid)
    ensures fresh(api) && api.Valid()
    ensures newId in api.videos && row == api.videos[newId]
    ensures row.id == newId && row.transcription == "hello world"
    ensures sent == Some(TranscriptionRoute.TranscriptionRequest(row.path, "whisper-1", "pt", "json", 0.0, "test"))
  {
    var video;
    api, video := UploadClip(clip, uuid, tmpDir, newId);
    var params := Some(JObject(map["videoId" := JString(newId)]));
    var body := TranscriptionBody(Some("test"));
    assert StringAt(params, "videoId") == Some(newId);
    TranscriptionBodyCarriesPrompt(Some("test"));
    TranscriptionRoute.TranscriptionRequestShape(params, body, api.videos, newId, "test");
    var transcribed;
    transcribed, sent := api.CreateTranscription(params, body, Ok("hello world"));
    assert sent == Some(TranscriptionRoute.TranscriptionRequest(video.path, "whisper-1", "pt", "json", 0.0, "test"));
    assert transcribed == TranscriptionRoute.Transcript("hello world");
    row := api.videos[newId];
  }

  /** And generate from "Summarize: {transcription}": the completion API is asked, at
      the default temperature, for "Summarize: hello world". */
  method Scenario(clip: seq<byte>, uuid: string, tmpDir: string, newId: string)
    returns (row: Video, plan: GenerateRoute.GeneratePlan)
    requires UploadRoute.IsUuid(uuid)
    ensures row.id == newId && row.transcription == "hello world"
    ensures plan == GenerateRoute.Call(GenerateRoute.CompletionRequest(
      GenerateRoute.ChatModel, GenerateRoute.DefaultTemperature, [GenerateRoute.Message("user", "Summarize: " + "hello world")]))
  {
    var api;
    var sent;
    api, row, sent := TranscribeClip(clip, uuid, tmpDir, newId);
    var prefix := "Summarize: ";
    GenerateScenario(api.videos, newId, prefix, row.transcription);
    var generate := Some(JObject(map["videoId" := JString(newId), "template" := JString(prefix + GenerateRoute.Marker)]));
    plan := GenerateRoute.PlanGeneration(generate, api.videos);
  }
}
