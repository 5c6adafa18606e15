/** The preview bookkeeping the Rust client shares between its command
    handlers and its background threads (client/src-tauri/src/state.rs). */
module PreviewState {
  import opened Wrappers

  /** `VideoPreviewChunkStatus`: the life of one chunk, in order. */
  datatype ChunkStatus = NotRequested | Requested | Generating | Generated | Downloading | Downloaded

  /** `VideoPreviewStatus` (`ClipNotRequested` is its `NotRequested`):
      nothing asked yet, the length asked, or the duration, the codec string
      once known, whether the clip has video, and the status of every chunk. */
  datatype VideoPreviewStatus =
    | ClipNotRequested
    | LengthRequested
    | Data(duration: nat, codec: Option<string>, isVideo: bool, chunks: seq<ChunkStatus>)

  /** Clip ids (`Uuid`) as their text. */
  type ClipId = string

  /** The `video_preview_data` table of `SharedState`; the other fields are
      not part of this model. */
  class SharedState {
    var videoPreviewData: map<ClipId, VideoPreviewStatus>

    constructor(data: map<ClipId, VideoPreviewStatus>)
      ensures videoPreviewData == data
    {
      videoPreviewData := data;
    }
  }

  /** Every chunk in status from is now in status to; nothing else changes. */
  function Swept(chunks: seq<ChunkStatus>, from: ChunkStatus, to: ChunkStatus): (r: seq<ChunkStatus>)
    ensures |r| == |chunks|
    ensures forall i :: 0 <= i < |r| ==> r[i] == if chunks[i] == from then to else chunks[i]
  {
    seq(|chunks|, i requires 0 <= i < |chunks| => if chunks[i] == from then to else chunks[i])
  }

  /** A sweep leaves no chunk in the swept-from status, and repeating it
      changes nothing. */
  lemma SweptProperties(chunks: seq<ChunkStatus>, from: ChunkStatus, to: ChunkStatus)
    requires from != to
    ensures from !in Swept(chunks, from, to)
    ensures Swept(Swept(chunks, from, to), from, to) == Swept(chunks, from, to)
    ensures forall i :: 0 <= i < |chunks| && chunks[i] != from ==> Swept(chunks, from, to)[i] == chunks[i]
  {
    var r := Swept(chunks, from, to);
    assert forall c :: c in r ==> c != from by {
      forall c | c in r
        ensures c != from
      {
        var i :| 0 <= i < |r| && r[i] == c;
      }
    }
  }

  /** The sweep applied to one clip's record: only Data records have chunks. */
  function SweptStatus(s: VideoPreviewStatus, from: ChunkStatus, to: ChunkStatus): (r: VideoPreviewStatus)
    ensures !s.Data? ==> r == s
    ensures s.Data? ==> r == s.(chunks := Swept(s.chunks, from, to))
  {
    if s.Data? then s.(chunks := Swept(s.chunks, from, to)) else s
  }
}
