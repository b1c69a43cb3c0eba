/** What a lookup response carries (client/client.go), reduced to the fields matching reads. */
module Wire {
  import opened Wrappers

  datatype TrackSummary = TrackSummary(id: int, lang: string, kind: string, generated: bool, downloads: int)

  /** A track authored for another cut of the same video. */
  datatype Sibling = Sibling(
    trackId: int, releaseId: int, lang: string, generated: bool, downloads: int,
    offsetMs: Option<int>, offsetSource: Option<string>)

  datatype Release = Release(
    id: int, oshash: string, phash: Option<string>, durationMs: int,
    tracks: seq<TrackSummary>, siblings: seq<Sibling>)
}
