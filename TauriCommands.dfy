/** The preview commands the front end invokes on the Rust client
    (client/src-tauri/src/tauri_commands.rs). Each runs under the shared
    state's lock, so each is one atomic step here. */
module TauriCommands {
  import opened Wrappers
  import opened PreviewState

  const TWO_POW_32: int := 0x1_0000_0000

  /** The table after a length request for id: LengthRequested for a clip
      that is absent or not requested, anything else unchanged. */
  function AfterLengthRequest(m: map<ClipId, VideoPreviewStatus>, id: ClipId): (r: map<ClipId, VideoPreviewStatus>)
    ensures r.Keys == m.Keys + {id}
    ensures forall k :: k in m && k != id ==> r[k] == m[k]
  {
    if id in m && m[id] != ClipNotRequested then m else m[id := LengthRequested]
  }

  /** A length request only ever moves id from nothing or NotRequested to
      LengthRequested; all other clips, and a clip past that stage, are left
      alone; asking twice is asking once. */
  lemma LengthRequestEffect(m: map<ClipId, VideoPreviewStatus>, id: ClipId)
    ensures var r := AfterLengthRequest(m, id);
            r.Keys == m.Keys + {id}
            && (forall k :: k in m && k != id ==> r[k] == m[k])
            && (r[id] == LengthRequested <==> id !in m || m[id] == ClipNotRequested || m[id] == LengthRequested)
            && (id in m && m[id] != ClipNotRequested ==> r == m)
            && AfterLengthRequest(r, id) == r
  {
  }

  /** `request_video_length`. */
  method RequestVideoLength(state: SharedState, clipId: ClipId)
    modifies state
    ensures state.videoPreviewData == AfterLengthRequest(old(state.videoPreviewData), clipId)
  {
    if clipId in state.videoPreviewData {
      if state.videoPreviewData[clipId] != ClipNotRequested {
        return;
      }
    }
    state.videoPreviewData := state.videoPreviewData[clipId := LengthRequested];
  }

  /** Every NotRequested chunk in [start, end] becomes Requested. */
  function RequestedRange(chunks: seq<ChunkStatus>, start: int, end: int): (r: seq<ChunkStatus>)
    ensures |r| == |chunks|
    ensures forall i :: 0 <= i < |r| ==> r[i] == if start <= i <= end && chunks[i] == NotRequested then Requested else chunks[i]
  {
    seq(|chunks|, i requires 0 <= i < |chunks| => if start <= i <= end && chunks[i] == NotRequested then Requested else chunks[i])
  }

  /** Inside the range nothing is left NotRequested; outside it, and for
      every chunk already past NotRequested, nothing changes; requesting the
      same range again changes nothing. */
  lemma RequestedRangeProperties(chunks: seq<ChunkStatus>, start: int, end: int)
    ensures var r := RequestedRange(chunks, start, end);
            (forall i :: start <= i <= end && 0 <= i < |r| ==> r[i] != NotRequested)
            && (forall i :: 0 <= i < |r| && (i < start || i > end) ==> r[i] == chunks[i])
            && (forall i :: 0 <= i < |r| && chunks[i] != NotRequested ==> r[i] == chunks[i])
            && RequestedRange(r, start, end) == r
  {
  }

  /** `request_video_preview` on the table: a no-op for an unknown clip, a
      clip without data, start > end, or end not below the chunk count (as
      the u32 the source compares with); otherwise the range is requested. */
  function AfterPreviewRequest(m: map<ClipId, VideoPreviewStatus>, id: ClipId, start: nat, end: nat): (r: map<ClipId, VideoPreviewStatus>)
    ensures r.Keys == m.Keys
    ensures forall k :: k in m && k != id ==> r[k] == m[k]
  {
    if id !in m || !m[id].Data? || start > end || end >= |m[id].chunks| % TWO_POW_32 then m
    else m[id := m[id].(chunks := RequestedRange(m[id].chunks, start, end))]
  }

  /** Exactly the four no-op cases leave the table alone; otherwise only id's
      chunks change. Requesting twice is requesting once. */
  lemma PreviewRequestEffect(m: map<ClipId, VideoPreviewStatus>, id: ClipId, start: nat, end: nat)
    ensures var r := AfterPreviewRequest(m, id, start, end);
            r.Keys == m.Keys
            && (forall k :: k in m && k != id ==> r[k] == m[k])
            && (id !in m || !m[id].Data? || start > end || end >= |m[id].chunks| % TWO_POW_32 ==> r == m)
            && (id in m && m[id].Data? && start <= end < |m[id].chunks| % TWO_POW_32 ==>
                  r[id] == m[id].(chunks := RequestedRange(m[id].chunks, start, end)))
            && AfterPreviewRequest(r, id, start, end) == r
  {
    var r := AfterPreviewRequest(m, id, start, end);
    if id in m && m[id].Data? && start <= end < |m[id].chunks| % TWO_POW_32 {
      RequestedRangeProperties(m[id].chunks, start, end);
    }
  }

  /** When the table holds fewer than 2^32 chunks for the clip, the guard is
      the plain bound check. */
  lemma PreviewGuardSmall(n: nat, end: nat)
    requires n < TWO_POW_32
    ensures (end >= n % TWO_POW_32) <==> end >= n
  {
  }

  /** `request_video_preview`: the indices of the range, in order. */
  method RequestVideoPreview(state: SharedState, clipId: ClipId, startChunk: nat, endChunk: nat)
    requires startChunk < TWO_POW_32 && endChunk < TWO_POW_32
    modifies state
    ensures state.videoPreviewData == AfterPreviewRequest(old(state.videoPreviewData), clipId, startChunk, endChunk)
  {
    if clipId !in state.videoPreviewData {
      return;
    }
    var current := state.videoPreviewData[clipId];
    if current.Data? {
      var data := current.chunks;
      if startChunk > endChunk || endChunk >= |data| % TWO_POW_32 {
        return;
      }
      for i := startChunk to endChunk + 1
        invariant |data| == |current.chunks|
        invariant forall j :: 0 <= j < |data| ==> data[j] == if startChunk <= j < i && current.chunks[j] == NotRequested then Requested else current.chunks[j]
      {
        if data[i] == NotRequested {
          data := data[i := Requested];
        }
      }
      assert data == RequestedRange(current.chunks, startChunk, endChunk);
      state.videoPreviewData := state.videoPreviewData[clipId := current.(chunks := data)];
    }
  }

  /** `get_video_preview_data`: a copy of the table; nothing is changed. */
  method GetVideoPreviewData(state: SharedState) returns (r: map<ClipId, VideoPreviewStatus>)
    ensures r == state.videoPreviewData
  {
    r := state.videoPreviewData;
  }
}
