/** The browser's upload form: its `status` and `videoFile` state, the file picker
    handler and the submit handler that drives convert, upload and transcribe. */
module UploadForm {
  import opened Common
  import NodePath

  datatype Status = Waiting | Converting | Uploading | Generating | Success

  /** The order in which the submit handler sets the statuses. */
  const StatusOrder: seq<Status> := [Converting, Uploading, Generating, Success]

  /** The two form controls that `status` switches off. */
  datatype Control = PromptTextarea | SubmitButton

  /** The `disabled` attribute of each control. */
  function Disabled(control: Control, status: Status): (disabled: bool)
    ensures disabled <==> status != Waiting
  {
    match control
    case PromptTextarea => status != Waiting
    case SubmitButton => status != Waiting
  }

  datatype File = File(name: string, content: seq<byte>)

  /** The name `convertVideoToAudio` gives the transcoder's output. */
  const AudioFileName := "audio.mp3"

  /** `convertVideoToAudio`: the transcoded bytes, always named "audio.mp3". */
  function ConvertedFile(audio: seq<byte>): (f: File) {
    File(AudioFileName, audio)
  }

  /** The converted file's name is bare (no directory part) and its extension is
      ".mp3", whatever the transcoder produced. */
  lemma ConvertedFileIsMp3(audio: seq<byte>)
    ensures var f := ConvertedFile(audio);
      && f.content == audio
      && '/' !in f.name && NodePath.FinalComponent(f.name) == f.name
      && NodePath.ExtName(f.name) == ".mp3"
  {
    var name := AudioFileName;
    assert '/' !in name by {
      forall i | 0 <= i < |name| ensures name[i] != '/' {
        assert name == ['a', 'u', 'd', 'i', 'o', '.', 'm', 'p', '3'];
      }
    }
    NodePath.FinalComponentOfName(name);
    assert name[|name| - 4..] == ".mp3";
    NodePath.ExtNameIs(name, ".mp3");
  }

  /** The multipart form data posted to the API: the audio under the field "file" and
      a "prompt" field. */
  datatype UploadPayload = UploadPayload(file: File, prompt: string)
  const FileField := "file"

  /** What the form does that can be observed: every `setStatus` and every call out. */
  datatype Event =
    | StatusChanged(to: Status)
    | Convert(video: File)
    | PostVideo(payload: UploadPayload)
    | PostTranscription(videoId: string, prompt: Option<string>)
    | VideoUploaded(videoId: string)

  /** The events of one submission, given the selected file, the textarea's value and
      what the transcoder, the upload and the transcription calls answer. A rejected
      call ends the handler (there is no catch), leaving the status where it was. */
  function Submission(videoFile: Option<File>, prompt: Option<string>, conversion: ExtResult<seq<byte>>,
                      upload: ExtResult<string>, transcription: ExtResult<string>): (events: seq<Event>)
    ensures videoFile.None? <==> events == []
    ensures videoFile.Some? ==> |events| >= 2 && events[..2] == [StatusChanged(Converting), Convert(videoFile.value)]
    ensures |events| <= 8
  {
    match videoFile
    case None => []
    case Some(video) =>
      [StatusChanged(Converting), Convert(video)] +
      match conversion
      case Err => []
      case Ok(audio) =>
        [StatusChanged(Uploading), PostVideo(UploadPayload(ConvertedFile(audio), prompt.GetOr("")))] +
        match upload
        case Err => []
        case Ok(videoId) =>
          [StatusChanged(Generating), PostTranscription(videoId, prompt)] +
          match transcription
          case Err => []
          case Ok(_) => [StatusChanged(Success), VideoUploaded(videoId)]
  }

  /** The statuses set by `events`, in order. */
  function Statuses(events: seq<Event>): (statuses: seq<Status>)
    decreases |events|
  {
    if events == [] then []
    else (if events[0].StatusChanged? then [events[0].to] else []) + Statuses(events[1..])
  }

  /** The status after `events`, starting from `status`. */
  function FinalStatus(status: Status, events: seq<Event>): (final: Status)
    decreases |events|
  {
    if events == [] then status
    else FinalStatus(if events[0].StatusChanged? then events[0].to else status, events[1..])
  }

  /** How many times `onVideoUploaded` is called in `events`. */
  function UploadedCalls(events: seq<Event>): (calls: nat)
    decreases |events|
  {
    if events == [] then 0
    else (if events[0].VideoUploaded? then 1 else 0) + UploadedCalls(events[1..])
  }

  predicate AllOk(videoFile: Option<File>, conversion: ExtResult<seq<byte>>,
                  upload: ExtResult<string>, transcription: ExtResult<string>) {
    videoFile.Some? && conversion.Ok? && upload.Ok? && transcription.Ok?
  }

  lemma {:induction false} StatusesAppend(a: seq<Event>, b: seq<Event>)
    ensures Statuses(a + b) == Statuses(a) + Statuses(b)
    decreases |a|
  {
    if a == [] {
      assert a + b == b;
    } else {
      assert (a + b)[0] == a[0];
      assert (a + b)[1..] == a[1..] + b;
      StatusesAppend(a[1..], b);
    }
  }

  lemma {:induction false} UploadedCallsAppend(a: seq<Event>, b: seq<Event>)
    ensures UploadedCalls(a + b) == UploadedCalls(a) + UploadedCalls(b)
    decreases |a|
  {
    if a == [] {
      assert a + b == b;
    } else {
      assert (a + b)[0] == a[0];
      assert (a + b)[1..] == a[1..] + b;
      UploadedCallsAppend(a[1..], b);
    }
  }

  lemma {:induction false} FinalStatusAppend(s: Status, a: seq<Event>, b: seq<Event>)
    ensures FinalStatus(s, a + b) == FinalStatus(FinalStatus(s, a), b)
    decreases |a|
  {
    if a == [] {
      assert a + b == b;
    } else {
      assert (a + b)[0] == a[0];
      assert (a + b)[1..] == a[1..] + b;
      FinalStatusAppend(if a[0].StatusChanged? then a[0].to else s, a[1..], b);
    }
  }

  /** A step of the handler: a status change followed by one call. */
  lemma Step(s: Status, t: Status, e: Event)
    requires !e.StatusChanged?
    ensures Statuses([StatusChanged(t), e]) == [t]
    ensures FinalStatus(s, [StatusChanged(t), e]) == t
    ensures UploadedCalls([StatusChanged(t), e]) == (if e.VideoUploaded? then 1 else 0)
  {
    var a := [StatusChanged(t), e];
    assert a[1..] == [e];
    assert [e][1..] == [];
    assert Statuses([e]) == [];
    assert FinalStatus(t, [e]) == t;
    assert UploadedCalls([e]) == (if e.VideoUploaded? then 1 else 0);
  }

  /** How many steps of `StatusOrder` a submission reaches. */
  function StepsReached(videoFile: Option<File>, conversion: ExtResult<seq<byte>>,
                        upload: ExtResult<string>, transcription: ExtResult<string>): (k: nat)
  {
    if videoFile.None? then 0
    else if conversion.Err? then 1
    else if upload.Err? then 2
    else if transcription.Err? then 3
    else 4
  }

  lemma {:induction false} SubmissionStatuses(videoFile: Option<File>, prompt: Option<string>, conversion: ExtResult<seq<byte>>,
                                              upload: ExtResult<string>, transcription: ExtResult<string>)
    ensures Statuses(Submission(videoFile, prompt, conversion, upload, transcription)) ==
      StatusOrder[..StepsReached(videoFile, conversion, upload, transcription)]
  {
    if videoFile.Some? {
      var e1 := [StatusChanged(Converting), Convert(videoFile.value)];
      var e2 := if conversion.Ok? then [StatusChanged(Uploading), PostVideo(UploadPayload(ConvertedFile(conversion.value), prompt.GetOr("")))] else [];
      var e3 := if conversion.Ok? && upload.Ok? then [StatusChanged(Generating), PostTranscription(upload.value, prompt)] else [];
      var e4 := if conversion.Ok? && upload.Ok? && transcription.Ok? then [StatusChanged(Success), VideoUploaded(upload.value)] else [];
      assert Submission(videoFile, prompt, conversion, upload, transcription) == e1 + (e2 + (e3 + e4));
      StatusesAppend(e1, e2 + (e3 + e4));
      StatusesAppend(e2, e3 + e4);
      StatusesAppend(e3, e4);
      Step(Waiting, Converting, e1[1]);
      var s2, s3, s4: seq<Status> := [], [], [];
      if conversion.Ok? { Step(Waiting, Uploading, e2[1]); s2 := [Uploading]; }
      if conversion.Ok? && upload.Ok? { Step(Waiting, Generating, e3[1]); s3 := [Generating]; }
      if AllOk(videoFile, conversion, upload, transcription) { Step(Waiting, Success, e4[1]); s4 := [Success]; }
      assert Statuses(e1 + (e2 + (e3 + e4))) == [Converting] + (s2 + (s3 + s4));
    }
  }

  /** A rejected call ends the handler: each step reached contributes its status
      change and its one call, and nothing follows the step that failed (no
      retry, no further call). */
  lemma SubmissionStopsAtRejection(videoFile: Option<File>, prompt: Option<string>, conversion: ExtResult<seq<byte>>,
                                   upload: ExtResult<string>, transcription: ExtResult<string>)
    ensures |Submission(videoFile, prompt, conversion, upload, transcription)| ==
      2 * StepsReached(videoFile, conversion, upload, transcription)
  {
  }

  /** The statuses a submission sets are an initial part of converting, uploading,
      generating, success: none is skipped and none is revisited; they reach success
      exactly when every step succeeds, and without a selected file nothing happens. */
  lemma StatusesFollowPipeline(videoFile: Option<File>, prompt: Option<string>, conversion: ExtResult<seq<byte>>,
                               upload: ExtResult<string>, transcription: ExtResult<string>)
    ensures var events := Submission(videoFile, prompt, conversion, upload, transcription);
      && Statuses(events) <= StatusOrder
      && (Success in Statuses(events) <==> AllOk(videoFile, conversion, upload, transcription))
      && (videoFile.None? <==> events == [])
  {
    var k := StepsReached(videoFile, conversion, upload, transcription);
    SubmissionStatuses(videoFile, prompt, conversion, upload, transcription);
    assert StatusOrder[..k] <= StatusOrder;
    if k == 4 {
      assert StatusOrder[..k][3] == Success;
    } else {
      forall i | 0 <= i < k ensures StatusOrder[..k][i] != Success { }
    }
  }

  /** `onVideoUploaded` is called once on a fully successful submission, as the last
      thing the handler does, right after the status becomes success, with the id the
      upload returned; otherwise it is not called. */
  lemma VideoUploadedOnceAfterSuccess(videoFile: Option<File>, prompt: Option<string>, conversion: ExtResult<seq<byte>>,
                                      upload: ExtResult<string>, transcription: ExtResult<string>)
    ensures var events := Submission(videoFile, prompt, conversion, upload, transcription);
      && UploadedCalls(events) == (if AllOk(videoFile, conversion, upload, transcription) then 1 else 0)
      && (AllOk(videoFile, conversion, upload, transcription) ==>
            |events| == 8 && events[6] == StatusChanged(Success) && events[7] == VideoUploaded(upload.value))
  {
    var events := Submission(videoFile, prompt, conversion, upload, transcription);
    if videoFile.Some? {
      var e1 := [StatusChanged(Converting), Convert(videoFile.value)];
      var e2 := if conversion.Ok? then [StatusChanged(Uploading), PostVideo(UploadPayload(ConvertedFile(conversion.value), prompt.GetOr("")))] else [];
      var e3 := if conversion.Ok? && upload.Ok? then [StatusChanged(Generating), PostTranscription(upload.value, prompt)] else [];
      var e4 := if conversion.Ok? && upload.Ok? && transcription.Ok? then [StatusChanged(Success), VideoUploaded(upload.value)] else [];
      assert events == e1 + (e2 + (e3 + e4));
      UploadedCallsAppend(e1, e2 + (e3 + e4));
      UploadedCallsAppend(e2, e3 + e4);
      UploadedCallsAppend(e3, e4);
      Step(Waiting, Converting, e1[1]);
      if conversion.Ok? { Step(Waiting, Uploading, e2[1]); }
      if conversion.Ok? && upload.Ok? { Step(Waiting, Generating, e3[1]); }
      if AllOk(videoFile, conversion, upload, transcription) { Step(Waiting, Success, e4[1]); }
    }
  }

  /** Once a submission has started, every status it sets disables both the
      textarea and the submit button, so the form cannot be submitted again. */
  lemma ControlsLockedDuringSubmission(videoFile: Option<File>, prompt: Option<string>, conversion: ExtResult<seq<byte>>,
                                       upload: ExtResult<string>, transcription: ExtResult<string>, control: Control)
    ensures forall s :: s in Statuses(Submission(videoFile, prompt, conversion, upload, transcription)) ==> Disabled(control, s)
    ensures !Disabled(control, Waiting)
  {
    StatusesFollowPipeline(videoFile, prompt, conversion, upload, transcription);
    var st := Statuses(Submission(videoFile, prompt, conversion, upload, transcription));
    forall s | s in st ensures Disabled(control, s) {
      assert s in StatusOrder;
    }
  }

  /** The posted payload carries the converted "audio.mp3" and a prompt field that is
      "" when the textarea gave no value. */
  lemma UploadPayloadShape(video: File, prompt: Option<string>, audio: seq<byte>,
                           upload: ExtResult<string>, transcription: ExtResult<string>)
    ensures var events := Submission(Some(video), prompt, Ok(audio), upload, transcription);
      && |events| >= 4
      && events[3] == PostVideo(UploadPayload(File("audio.mp3", audio), if prompt.Some? then prompt.value else ""))
  {
  }

  /** Once the upload has answered, the status becomes generating and the
      transcription call goes to the row the upload returned, with the textarea's
      prompt as it is (an absent prompt stays absent). */
  lemma TranscriptionCallShape(video: File, prompt: Option<string>, audio: seq<byte>,
                               videoId: string, transcription: ExtResult<string>)
    ensures var events := Submission(Some(video), prompt, Ok(audio), Ok(videoId), transcription);
      && |events| >= 6
      && events[4] == StatusChanged(Generating)
      && events[5] == PostTranscription(videoId, prompt)
  {
  }

  /** A submission leaves the status at the last step it reached: a rejected call
      leaves it stuck there, and without a selected file it is not touched. */
  lemma SubmissionFinalStatus(status: Status, videoFile: Option<File>, prompt: Option<string>,
                              conversion: ExtResult<seq<byte>>, upload: ExtResult<string>,
                              transcription: ExtResult<string>)
    ensures FinalStatus(status, Submission(videoFile, prompt, conversion, upload, transcription)) ==
      if videoFile.None? then status
      else if conversion.Err? then Converting
      else if upload.Err? then Uploading
      else if transcription.Err? then Generating
      else Success
  {
    if videoFile.Some? {
      var e1 := [StatusChanged(Converting), Convert(videoFile.value)];
      var e2 := if conversion.Ok? then [StatusChanged(Uploading), PostVideo(UploadPayload(ConvertedFile(conversion.value), prompt.GetOr("")))] else [];
      var e3 := if conversion.Ok? && upload.Ok? then [StatusChanged(Generating), PostTranscription(upload.value, prompt)] else [];
      var e4 := if conversion.Ok? && upload.Ok? && transcription.Ok? then [StatusChanged(Success), VideoUploaded(upload.value)] else [];
      assert Submission(videoFile, prompt, conversion, upload, transcription) == e1 + (e2 + (e3 + e4));
      FinalStatusAppend(status, e1, e2 + (e3 + e4));
      Step(status, Converting, e1[1]);
      FinalStatusAppend(Converting, e2, e3 + e4);
      if conversion.Ok? { Step(Converting, Uploading, e2[1]); }
      var s2 := FinalStatus(Converting, e2);
      FinalStatusAppend(s2, e3, e4);
      if conversion.Ok? && upload.Ok? { Step(s2, Generating, e3[1]); }
      var s3 := FinalStatus(s2, e3);
      if conversion.Ok? && upload.Ok? && transcription.Ok? { Step(s3, Success, e4[1]); }
    }
  }

  class Form {
    var videoFile: Option<File>
    var status: Status
    /** Everything the form has done so far, in order. */
    var events: seq<Event>

    constructor ()
      ensures videoFile == None && status == Waiting && events == []
    {
      videoFile := None;
      status := Waiting;
      events := [];
    }

    /** `setStatus`. */
    method SetStatus(to: Status)
      modifies this`status, this`events
      ensures status == to && events == old(events) + [StatusChanged(to)]
    {
      status := to;
      events := events + [StatusChanged(to)];
    }

    /** `handleFileSelected`: no file list leaves the selection alone; otherwise the
        first file is selected (an empty list selects nothing). */
    method HandleFileSelected(files: Option<seq<File>>)
      modifies this`videoFile
      ensures files.None? ==> videoFile == old(videoFile)
      ensures files.Some? && |files.value| > 0 ==> videoFile == Some(files.value[0])
      ensures files.Some? && |files.value| == 0 ==> videoFile == None
    {
      if files.None? {
        return;
      }
      var selected := files.value;
      videoFile := if |selected| > 0 then Some(selected[0]) else None;
    }

    /** `handleUploadVideo`, with the textarea's value and the answers of the three
        awaited calls as parameters. */
    method HandleUploadVideo(prompt: Option<string>, conversion: ExtResult<seq<byte>>,
                             upload: ExtResult<string>, transcription: ExtResult<string>)
      modifies this`status, this`events
      ensures events == old(events) + Submission(videoFile, prompt, conversion, upload, transcription)
      ensures status == FinalStatus(old(status), Submission(videoFile, prompt, conversion, upload, transcription))
    {
      SubmissionFinalStatus(status, videoFile, prompt, conversion, upload, transcription);
      ghost var planned := Submission(videoFile, prompt, conversion, upload, transcription);
      if videoFile.None? {
        return;
      }
      var video := videoFile.value;
      SetStatus(Converting);
      events := events + [Convert(video)];
      if conversion.Err? {
        assert planned == [StatusChanged(Converting), Convert(video)];
        assert events == old(events) + planned;
        return;
      }
      var audioFile := ConvertedFile(conversion.value);
      var payload := UploadPayload(audioFile, prompt.GetOr(""));
      SetStatus(Uploading);
      events := events + [PostVideo(payload)];
      if upload.Err? {
        assert planned == [StatusChanged(Converting), Convert(video)]
                          + [StatusChanged(Uploading), PostVideo(payload)];
        assert events == old(events) + planned;
        return;
      }
      var videoId := upload.value;
      SetStatus(Generating);
      events := events + [PostTranscription(videoId, prompt)];
      if transcription.Err? {
        assert planned == [StatusChanged(Converting), Convert(video)]
                          + ([StatusChanged(Uploading), PostVideo(payload)]
                          + [StatusChanged(Generating), PostTranscription(videoId, prompt)]);
        assert events == old(events) + planned;
        return;
      }
      SetStatus(Success);
      events := events + [VideoUploaded(videoId)];
      assert planned == [StatusChanged(Converting), Convert(video)]
                        + ([StatusChanged(Uploading), PostVideo(payload)]
                        + ([StatusChanged(Generating), PostTranscription(videoId, prompt)]
                        + [StatusChanged(Success), VideoUploaded(videoId)]));
      assert events == old(events) + planned;
    }
  }
}
