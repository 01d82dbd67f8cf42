/** The API process's state: the `Video` table and the files under its tmp
    directory, with the two routes that change them. */
module Server {
  import opened Common
  import opened JsonBody
  import opened VideoStore
  import opened UploadRoute
  import opened TranscriptionRoute

  /** How streaming the upload to disk (`pump`) ended; a failed stream may leave a
      partly written file behind. */
  datatype WriteResult = Written | WriteFailed(leftover: Option<seq<byte>>)

  class Api {
    /** `path.resolve(__dirname, "../../tmp")`, an opaque directory. */
    const tmpDir: string
    var videos: Videos
    var files: map<string, seq<byte>>

    ghost predicate Valid()
      reads this
    {
      WellKeyed(videos)
    }

    constructor (tmpDir: string, videos: Videos, files: map<string, seq<byte>>)
      requires WellKeyed(videos)
      ensures Valid()
      ensures this.tmpDir == tmpDir && this.videos == videos && this.files == files
    {
      this.tmpDir := tmpDir;
      this.videos := videos;
      this.files := files;
    }

    /** `POST /api/video`. `uuid` is what `randomUUID()` returned, `write` how the disk
        write ended and `newId` the id the database gives the new row. The file is
        written before the row is created, so a failed write never leaves a row, and
        a refused row (duplicate id) leaves the written file. */
    method UploadVideo(part: Option<FilePart>, uuid: string, write: WriteResult, newId: string)
      returns (reply: UploadReply)
      requires Valid()
      modifies this
      ensures Valid()
      ensures match PlanUpload(part, uuid, tmpDir)
        case Reject(error) =>
          reply == BadRequest(error) && reply.Status() == 400 &&
          videos == old(videos) && files == old(files)
        case Store(path, content, name) =>
          match write
          case WriteFailed(leftover) =>
            && reply == UploadError(WriteError)
            && videos == old(videos)
            && files == (if leftover.Some? then old(files)[path := leftover.value] else old(files))
          case Written =>
            && files == old(files)[path := content]
            && if newId in old(videos) then
                 reply == UploadError(Conflict) && videos == old(videos)
               else
                 var video := Video(newId, name, path, "");
                 && reply == Uploaded("File uploaded", video)
                 && reply.Status() == 200
                 && videos == Insert(old(videos), video)
    {
      var plan := PlanUpload(part, uuid, tmpDir);
      if plan.Reject? {
        return BadRequest(plan.error);
      }
      var filePath := plan.path;
      if write.WriteFailed? {
        if write.leftover.Some? {
          files := files[filePath := write.leftover.value];
        }
        return UploadError(WriteError);
      }
      files := files[filePath := plan.content];
      if newId in videos {
        return UploadError(Conflict);
      }
      var video := Video(newId, plan.name, filePath, "");
      videos := Insert(videos, video);
      reply := Uploaded("File uploaded", video);
    }

    /** `POST /api/video/:videoId/transcription`. `answer` is what the speech-to-text
        API returns when called; `sent` is the request it was called with, if any. On
        success only that row's transcription changes, to the returned text; since
        every row is stored under its own id, the row updated is the one asked for. */
    method CreateTranscription(params: Body, body: Body, answer: ExtResult<string>)
      returns (reply: TranscriptionReply, sent: Option<TranscriptionRequest>)
      requires Valid()
      modifies this`videos
      ensures Valid()
      ensures match PlanTranscription(params, body, old(videos))
        case Refuse(failure) =>
          && reply == TranscriptionError(failure) && reply.Status() == 500
          && sent == None && videos == old(videos)
        case Transcribe(videoId, request) =>
          && sent == Some(request)
          && match answer
             case Err =>
               reply == TranscriptionError(ExternalError) && reply.Status() == 500 && videos == old(videos)
             case Ok(text) =>
               && reply == Transcript(text) && reply.Status() == 200
               && videos == SetTranscription(old(videos), videoId, text)
               && videos[videoId].id == videoId
               && videos[videoId].transcription == reply.text
    {
      var plan := PlanTranscription(params, body, videos);
      if plan.Refuse? {
        return TranscriptionError(plan.failure), None;
      }
      sent := Some(plan.request);
      if answer.Err? {
        return TranscriptionError(ExternalError), sent;
      }
      videos := SetTranscription(videos, plan.videoId, answer.value);
      reply := Transcript(answer.value);
    }
  }
}
