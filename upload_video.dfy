/** The decisions of `POST /api/video`: which uploads are refused and where an
    accepted one is stored. The handler itself is `Server.Api.UploadVideo`. */
module UploadRoute {
  import opened Common
  import opened VideoStore
  import NodePath

  /** The first file part of the multipart request (`req.file()`). */
  datatype FilePart = FilePart(fieldname: string, filename: string, content: seq<byte>)

  /** The one extension the route accepts. */
  const Mp3 := ".mp3"

  /** What the route answers. */
  datatype UploadReply =
    | BadRequest(error: string)
    | UploadError(failure: Failure)
    | Uploaded(message: string, content: Video)
  {
    function Status(): (code: nat) {
      match this
      case BadRequest(_) => 400
      case UploadError(_) => 500
      case Uploaded(_, _) => 200
    }
  }

  /** What the route does with a request before touching the disk or the database:
      refuse it, or write `content` at `path` and record it under `name`. */
  datatype UploadPlan = Reject(error: string) | Store(path: string, content: seq<byte>, name: string)

  /** The shape of `crypto.randomUUID()`: 8-4-4-4-12 lower-case hex digits. */
  predicate IsUuid(u: string) {
    |u| == 36 &&
    forall i :: 0 <= i < |u| ==>
      if i == 8 || i == 13 || i == 18 || i == 23 then u[i] == '-'
      else '0' <= u[i] <= '9' || 'a' <= u[i] <= 'f'
  }

  /** `${fileBaseName}-${randomUUID()}${extention}`. */
  function UploadName(base: string, uuid: string, ext: string): (name: string) {
    base + "-" + uuid + ext
  }

  /** `path.resolve(tmpDir, name)` for a name without separators. */
  function StoragePath(tmpDir: string, name: string): (path: string) {
    tmpDir + "/" + name
  }

  /** The checks and the name computation of the route, in its order. */
  function PlanUpload(part: Option<FilePart>, uuid: string, tmpDir: string): (r: UploadPlan)
    ensures part.None? ==> r == Reject("No file uploaded")
    ensures part.Some? && NodePath.ExtName(part.value.filename) != Mp3 ==> r == Reject("Invalid file type")
    ensures r.Store? ==> r.content == part.value.content && r.name == part.value.fieldname
  {
    match part
    case None => Reject("No file uploaded")
    case Some(data) =>
      var ext := NodePath.ExtName(data.filename);
      if ext != Mp3 then Reject("Invalid file type")
      else
        var base := NodePath.BaseName(data.filename, ext);
        Store(StoragePath(tmpDir, UploadName(base, uuid, ext)), data.content, data.fieldname)
  }

  /** An upload is accepted exactly when its file name's final component ends in
      ".mp3" and has something before it. */
  lemma UploadAcceptedIff(part: Option<FilePart>, uuid: string, tmpDir: string)
    ensures PlanUpload(part, uuid, tmpDir).Store? <==>
      part.Some? &&
      var c := NodePath.FinalComponent(part.value.filename);
      |c| > |Mp3| && c[|c| - |Mp3|..] == Mp3
  {
    if part.Some? {
      NodePath.ExtNameIs(part.value.filename, Mp3);
    }
  }

  /** The stored file is `<base>-<uuid>.mp3` in the tmp directory, where `<base>.mp3`
      is the final component of the uploaded file's name: it keeps the original base
      name and always has the ".mp3" extension. */
  lemma StoredFileName(part: Option<FilePart>, uuid: string, tmpDir: string)
    requires IsUuid(uuid)
    requires PlanUpload(part, uuid, tmpDir).Store?
    ensures var base := NodePath.BaseName(part.value.filename, Mp3);
      var path := PlanUpload(part, uuid, tmpDir).path;
      && base + Mp3 == NodePath.FinalComponent(part.value.filename)
      && path == tmpDir + "/" + base + "-" + uuid + Mp3
      && NodePath.FinalComponent(path) == base + "-" + uuid + Mp3
      && NodePath.ExtName(path) == Mp3
  {
    var f := part.value.filename;
    var base := NodePath.BaseName(f, Mp3);
    NodePath.BaseNamePlusExtName(f);
    BaseHasNoSlash(f);
    UuidHasNoSlash(uuid);
    var name := UploadName(base, uuid, Mp3);
    NameHasNoSlash(base, uuid);
    NodePath.FinalComponentOfJoin(tmpDir, name);
    var path := StoragePath(tmpDir, name);
    assert path == tmpDir + "/" + base + "-" + uuid + Mp3;
    assert name[|name| - |Mp3|..] == Mp3;
    NodePath.ExtNameIs(path, Mp3);
  }

  lemma BaseHasNoSlash(f: string)
    requires NodePath.ExtName(f) == Mp3
    ensures '/' !in NodePath.BaseName(f, Mp3)
  {
    var c := NodePath.FinalComponent(f);
    var base := NodePath.BaseName(f, Mp3);
    NodePath.BaseNamePlusExtName(f);
    assert base == c[..|c| - |Mp3|];
    forall i | 0 <= i < |base| ensures base[i] != '/' { assert base[i] == c[i]; }
  }

  lemma UuidHasNoSlash(uuid: string)
    requires IsUuid(uuid)
    ensures '/' !in uuid
  {
    forall i | 0 <= i < |uuid| ensures uuid[i] != '/' { }
  }

  lemma NameHasNoSlash(base: string, uuid: string)
    requires '/' !in base && '/' !in uuid
    ensures '/' !in UploadName(base, uuid, Mp3)
  {
    var name := UploadName(base, uuid, Mp3);
    forall i | 0 <= i < |name| ensures name[i] != '/' {
      if i < |base| { assert name[i] == base[i]; }
      else if i == |base| { assert name[i] == '-'; }
      else if i < |base| + 1 + |uuid| { assert name[i] == uuid[i - |base| - 1]; }
      else { assert name[i] == Mp3[i - |base| - 1 - |uuid|]; }
    }
  }
}
