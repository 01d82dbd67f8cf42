/** The `Video` table, as a map from id to row. */
module VideoStore {

  /** A `Video` row (the timestamps are not modelled). */
  datatype Video = Video(id: string, name: string, path: string, transcription: string)

  type Videos = map<string, Video>

  /** Every row is stored under its own id. */
  predicate WellKeyed(vs: Videos) {
    forall id :: id in vs ==> vs[id].id == id
  }

  /** `prisma.video.create`: a row under a fresh id; every other row is kept. */
  function Insert(vs: Videos, v: Video): (r: Videos)
    requires v.id !in vs
    ensures r.Keys == vs.Keys + {v.id} && r[v.id] == v
    ensures forall id :: id in vs ==> r[id] == vs[id]
    ensures WellKeyed(vs) ==> WellKeyed(r)
  {
    vs[v.id := v]
  }

  /** `prisma.video.update` with `data: {transcription}`: only that field of that row. */
  function SetTranscription(vs: Videos, id: string, text: string): (r: Videos)
    requires id in vs
    ensures r.Keys == vs.Keys
    ensures r[id].transcription == text
    ensures r[id].id == vs[id].id && r[id].name == vs[id].name && r[id].path == vs[id].path
    ensures forall other :: other in vs && other != id ==> r[other] == vs[other]
    ensures WellKeyed(vs) ==> WellKeyed(r)
  {
    vs[id := vs[id].(transcription := text)]
  }

  /** A later transcription replaces an earlier one; nothing of the first is kept. */
  lemma SetTranscriptionOverwrites(vs: Videos, id: string, first: string, second: string)
    requires id in vs
    ensures SetTranscription(SetTranscription(vs, id, first), id, second) == SetTranscription(vs, id, second)
  {
  }
}
